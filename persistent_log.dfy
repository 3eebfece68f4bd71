/** The persistent log: up to 1000 entries kept in an NVS namespace as a
    ring of blobs under the keys "log_0" .. "log_999", with the number of
    entries ever added (since the last clear) under the key "count". */
module PersistentLog {
  import opened Esp

  const MAX_LOG_ENTRIES: nat := 1000
  /** sizeof(entry.tag) and MAX_MESSAGE_LEN: the buffers include the NUL */
  const TAG_SIZE: nat := 16
  const MESSAGE_SIZE: nat := 96
  const COUNT_KEY: string := "count"
  const U32_LIMIT: nat := 0x1_0000_0000

  /** A C string's characters: everything before its terminating NUL; each
      character stands for one byte */
  type CString = s: string | '\0' !in s

  /** log_entry_t */
  datatype LogEntry = LogEntry(timestampUs: I64, level: char, tag: CString, message: CString)

  /** The zero-initialised entry */
  const EMPTY_ENTRY := LogEntry(0, '\0', "", "")

  // ---------------------------------------------------------------------
  // Building an entry

  /** snprintf(buf, size, "%s", s): the longest prefix of s that fits in
      size bytes together with the NUL */
  function BoundedCopy(s: CString, size: nat): (t: CString)
    requires size >= 1
    ensures t <= s
    ensures |t| == if |s| < size then |s| else size - 1
  {
    if |s| < size then s else s[..size - 1]
  }

  /** The entry persistent_log_add builds at time `now` */
  function MakeEntry(now: I64, level: char, tag: CString, message: CString): (e: LogEntry)
    ensures |e.tag| < TAG_SIZE && e.tag <= tag && (|tag| < TAG_SIZE ==> e.tag == tag)
    ensures |e.message| < MESSAGE_SIZE && e.message <= message && (|message| < MESSAGE_SIZE ==> e.message == message)
    ensures e.timestampUs == now && e.level == level
  {
    LogEntry(now, level, BoundedCopy(tag, TAG_SIZE), BoundedCopy(message, MESSAGE_SIZE))
  }

  // ---------------------------------------------------------------------
  // Slot keys: "log_%lu"

  function DigitChar(d: nat): char
    requires d < 10
  {
    ('0' as int + d) as char
  }

  /** %lu: the decimal digits of n, most significant first */
  function Decimal(n: nat): (s: string)
    ensures 1 <= |s|
    ensures forall i | 0 <= i < |s| :: '0' <= s[i] <= '9'
    decreases n
  {
    if n < 10 then [DigitChar(n)] else Decimal(n / 10) + [DigitChar(n % 10)]
  }

  /** The value of a string of decimal digits */
  function DecimalValue(s: string): nat
    decreases |s|
  {
    if |s| == 0 then 0
    else
      var d := s[|s| - 1] as int - '0' as int;
      DecimalValue(s[..|s| - 1]) * 10 + (if 0 <= d then d else 0)
  }

  lemma {:induction false} DecimalRoundTrip(n: nat)
    ensures DecimalValue(Decimal(n)) == n
    decreases n
  {
    var s := Decimal(n);
    if n >= 10 {
      assert s[..|s| - 1] == Decimal(n / 10);
      DecimalRoundTrip(n / 10);
    }
  }

  lemma {:induction false} DecimalLength(n: nat)
    ensures n < 10 ==> |Decimal(n)| == 1
    ensures n < 100 ==> |Decimal(n)| <= 2
    ensures n < 1000 ==> |Decimal(n)| <= 3
    decreases n
  {
    if n >= 10 {
      DecimalLength(n / 10);
    }
  }

  /** The NVS key of a ring slot */
  function SlotKey(idx: nat): string {
    "log_" + Decimal(idx)
  }

  /** Distinct slots have distinct keys, no slot key is "count", and every
      key fits the 16-byte buffer (NVS keys are at most 15 characters). */
  lemma SlotKeys(i: nat, j: nat)
    requires i < MAX_LOG_ENTRIES && j < MAX_LOG_ENTRIES
    ensures SlotKey(i) == SlotKey(j) <==> i == j
    ensures SlotKey(i) != COUNT_KEY
    ensures |SlotKey(i)| < TAG_SIZE
  {
    DecimalLength(i);
    if SlotKey(i) == SlotKey(j) {
      assert Decimal(i) == SlotKey(i)[4..] == SlotKey(j)[4..] == Decimal(j);
      DecimalRoundTrip(i);
      DecimalRoundTrip(j);
    }
    assert SlotKey(i)[0] == 'l' != 'c' == COUNT_KEY[0];
  }

  // ---------------------------------------------------------------------
  // The ring window

  /** The entries a count of n leaves readable: the last min(n, 1000) */
  function WindowStart(n: nat): nat {
    if n > MAX_LOG_ENTRIES then n - MAX_LOG_ENTRIES else 0
  }

  function WindowLength(n: nat): (k: nat)
    ensures k <= MAX_LOG_ENTRIES && WindowStart(n) + k == n
  {
    if n > MAX_LOG_ENTRIES then MAX_LOG_ENTRIES else n
  }

  /** The slots the dump visits, in order */
  function VisitedSlots(n: nat): seq<nat> {
    seq(WindowLength(n), i requires 0 <= i < WindowLength(n) => (WindowStart(n) + i) % MAX_LOG_ENTRIES)
  }

  /** The dump visits min(count, 1000) slots, each in range and each at most
      once. */
  lemma VisitedSlotsDistinct(n: nat)
    ensures |VisitedSlots(n)| == WindowLength(n)
    ensures forall i | 0 <= i < |VisitedSlots(n)| :: VisitedSlots(n)[i] < MAX_LOG_ENTRIES
    ensures forall i, j | 0 <= i < j < |VisitedSlots(n)| :: VisitedSlots(n)[i] != VisitedSlots(n)[j]
  {
    var v := VisitedSlots(n);
    forall i, j | 0 <= i < j < |v|
      ensures v[i] != v[j]
    {
      SlotsApart(WindowStart(n) + i, WindowStart(n) + j);
    }
  }

  /** Two entries fewer than 1000 apart occupy different slots. */
  lemma SlotsApart(a: nat, b: nat)
    requires a < b < a + MAX_LOG_ENTRIES
    ensures a % MAX_LOG_ENTRIES != b % MAX_LOG_ENTRIES
  {
  }

  // ---------------------------------------------------------------------
  // Dump lines

  /** The C quotient: truncated toward zero */
  function CDiv(a: int, b: int): int
    requires b > 0
  {
    if a >= 0 then a / b else -((-a) / b)
  }

  /** The C remainder: it takes the sign of the dividend */
  function CRem(a: int, b: int): (r: int)
    requires b > 0
    ensures a == CDiv(a, b) * b + r
    ensures a >= 0 ==> 0 <= r < b
    ensures a < 0 ==> -b < r <= 0
  {
    a - CDiv(a, b) * b
  }

  /** One dumped entry: "[seconds.millis] level/tag: message" */
  datatype DumpLine = DumpLine(seconds: int, millis: int, level: char, tag: string, message: string)

  function Format(e: LogEntry): DumpLine {
    DumpLine(CDiv(e.timestampUs, 1_000_000), CDiv(CRem(e.timestampUs, 1_000_000), 1000), e.level, e.tag, e.message)
  }

  /** For a timestamp since boot, the seconds and milliseconds printed are
      the timestamp rounded down to a whole millisecond; for a negative one
      the milliseconds are printed negative. */
  lemma TimestampSplit(e: LogEntry)
    ensures var d := Format(e);
      && (e.timestampUs >= 0 ==>
            && 0 <= d.millis <= 999
            && d.seconds * 1_000_000 + d.millis * 1000 <= e.timestampUs < d.seconds * 1_000_000 + d.millis * 1000 + 1000)
      && (e.timestampUs < 0 ==> -999 <= d.millis <= 0)
  {
    var t := e.timestampUs;
    var r := CRem(t, 1_000_000);
    if t >= 0 {
      assert r == (r / 1000) * 1000 + r % 1000;
    } else {
      assert -r == ((-r) / 1000) * 1000 + (-r) % 1000;
    }
  }

  /** The entries a dump finds visiting `slots` in order; a slot that holds
      no blob yields nothing */
  function DumpEntries(blobs: map<string, LogEntry>, slots: seq<nat>): (found: seq<LogEntry>)
    ensures |found| <= |slots|
  {
    if |slots| == 0 then []
    else
      var key := SlotKey(slots[|slots| - 1]);
      DumpEntries(blobs, slots[..|slots| - 1]) + (if key in blobs then [blobs[key]] else [])
  }

  /** One more visit prints the blob of its slot, if there is one. */
  lemma DumpStep(blobs: map<string, LogEntry>, v: seq<nat>, i: nat)
    requires i < |v|
    ensures var key := SlotKey(v[i]);
      Formatted(DumpEntries(blobs, v[..i + 1]))
      == Formatted(DumpEntries(blobs, v[..i])) + (if key in blobs then [Format(blobs[key])] else [])
  {
    var key := SlotKey(v[i]);
    assert v[..i + 1][..i] == v[..i];
    if key in blobs {
      FormattedSnoc(DumpEntries(blobs, v[..i]), blobs[key]);
    } else {
      assert DumpEntries(blobs, v[..i + 1]) == DumpEntries(blobs, v[..i]);
    }
  }

  /** Each entry formatted, in order */
  function Formatted(s: seq<LogEntry>): (lines: seq<DumpLine>)
    ensures |lines| == |s|
  {
    seq(|s|, i requires 0 <= i < |s| => Format(s[i]))
  }

  lemma FormattedSnoc(s: seq<LogEntry>, e: LogEntry)
    ensures Formatted(s + [e]) == Formatted(s) + [Format(e)]
  {
    assert forall i | 0 <= i < |s| :: (s + [e])[i] == s[i];
  }

  /** The ring property: entry j of `added` sits in slot j mod 1000 for every
      j inside the window of the count */
  ghost predicate Ring(added: seq<LogEntry>, count: nat, blobs: map<string, LogEntry>) {
    && |added| == count
    && forall j {:trigger SlotHolds(added, blobs, j)} | WindowStart(count) <= j < count :: SlotHolds(added, blobs, j)
  }

  /** Entry j of `added` sits in slot j mod 1000 */
  ghost predicate SlotHolds(added: seq<LogEntry>, blobs: map<string, LogEntry>, j: nat) {
    j < |added| && SlotKey(j % MAX_LOG_ENTRIES) in blobs && blobs[SlotKey(j % MAX_LOG_ENTRIES)] == added[j]
  }

  /** Over a ring, the slot of an entry inside the window holds it. */
  lemma RingSlot(added: seq<LogEntry>, blobs: map<string, LogEntry>, j: nat)
    requires Ring(added, |added|, blobs)
    requires WindowStart(|added|) <= j < |added|
    ensures SlotKey(j % MAX_LOG_ENTRIES) in blobs && blobs[SlotKey(j % MAX_LOG_ENTRIES)] == added[j]
  {
    assert SlotHolds(added, blobs, j);
  }

  /** Over a ring, the dump finds the last min(count, 1000) entries added,
      oldest first. */
  lemma {:induction false} DumpShowsRecent(added: seq<LogEntry>, blobs: map<string, LogEntry>, k: nat)
    requires Ring(added, |added|, blobs)
    requires k <= WindowLength(|added|)
    ensures DumpEntries(blobs, VisitedSlots(|added|)[..k]) == added[WindowStart(|added|)..WindowStart(|added|) + k]
  {
    var start := WindowStart(|added|);
    var v := VisitedSlots(|added|);
    if k > 0 {
      DumpShowsRecent(added, blobs, k - 1);
      var j := start + k - 1;
      assert v[..k][..k - 1] == v[..k - 1];
      assert v[..k][k - 1] == j % MAX_LOG_ENTRIES;
      RingSlot(added, blobs, j);
      assert added[start..start + k] == added[start..j] + [added[j]];
    }
  }

  /** The whole window, as the dump walks it */
  lemma DumpWholeWindow(added: seq<LogEntry>, blobs: map<string, LogEntry>)
    requires Ring(added, |added|, blobs)
    ensures DumpEntries(blobs, VisitedSlots(|added|)) == added[WindowStart(|added|)..]
  {
    var start := WindowStart(|added|);
    var v := VisitedSlots(|added|);
    DumpShowsRecent(added, blobs, WindowLength(|added|));
    assert v[..WindowLength(|added|)] == v;
    assert added[start..start + WindowLength(|added|)] == added[start..];
  }

  // ---------------------------------------------------------------------
  // The NVS namespace

  /** An open NVS namespace: typed u32 values and blobs under string keys */
  class Nvs {
    var u32s: map<string, U32>
    var blobs: map<string, LogEntry>

    constructor ()
      ensures u32s == map[] && blobs == map[]
    {
      u32s, blobs := map[], map[];
    }

    /** nvs_get_u32: a missing key leaves *out as it was */
    method GetU32(key: string, out: Out<U32>) returns (r: EspErr)
      modifies out
      ensures key in u32s ==> r == ESP_OK && out.value == u32s[key]
      ensures key !in u32s ==> r == ESP_ERR_NOT_FOUND && out.value == old(out.value)
    {
      if key in u32s {
        out.value := u32s[key];
        r := ESP_OK;
      } else {
        r := ESP_ERR_NOT_FOUND;
      }
    }

    /** nvs_set_u32 followed by nvs_commit, whose outcome the flash
        decides: `status` */
    method SetU32(key: string, v: U32, status: EspErr) returns (r: EspErr)
      modifies this`u32s
      ensures r == status
      ensures u32s == if status == ESP_OK then old(u32s)[key := v] else old(u32s)
    {
      if status == ESP_OK {
        u32s := u32s[key := v];
      }
      r := status;
    }

    /** nvs_set_blob, whose outcome the flash decides: `status` */
    method SetBlob(key: string, e: LogEntry, status: EspErr) returns (r: EspErr)
      modifies this`blobs
      ensures r == status
      ensures blobs == if status == ESP_OK then old(blobs)[key := e] else old(blobs)
    {
      if status == ESP_OK {
        blobs := blobs[key := e];
      }
      r := status;
    }

    /** nvs_get_blob into a zero-initialised entry */
    method GetBlob(key: string) returns (r: EspErr, e: LogEntry)
      ensures key in blobs ==> r == ESP_OK && e == blobs[key]
      ensures key !in blobs ==> r == ESP_ERR_NOT_FOUND && e == EMPTY_ENTRY
    {
      if key in blobs {
        return ESP_OK, blobs[key];
      }
      return ESP_ERR_NOT_FOUND, EMPTY_ENTRY;
    }
  }

  /** The stored count, 0 when the key is absent */
  function Count(u32s: map<string, U32>): U32 {
    if COUNT_KEY in u32s then u32s[COUNT_KEY] else 0
  }

  // ---------------------------------------------------------------------
  // The log's module state and operations

  class Log {
    var initialized: bool
    const nvs: Nvs
    /** The entries added since the log was last empty, oldest first */
    ghost var added: seq<LogEntry>

    ghost predicate Valid()
      reads this, nvs
    {
      Ring(added, Count(nvs.u32s), nvs.blobs)
    }

    /** Boot: the namespace keeps what earlier boots stored, and `prior`
        stands for the entries they added */
    constructor (store: Nvs, ghost prior: seq<LogEntry>)
      ensures !initialized && nvs == store && added == prior
      ensures Ring(prior, Count(store.u32s), store.blobs) ==> Valid()
    {
      initialized := false;
      nvs := store;
      added := prior;
    }

    /** persistent_log_init: `openStatus` is what nvs_open answers */
    method Init(openStatus: EspErr) returns (r: EspErr)
      modifies this`initialized
      ensures old(initialized) ==> r == ESP_OK && initialized
      ensures !old(initialized) ==> r == openStatus && initialized == (openStatus == ESP_OK)
    {
      if initialized {
        return ESP_OK;
      }
      if openStatus != ESP_OK {
        return openStatus;
      }
      initialized := true;
      r := ESP_OK;
    }

    /** persistent_log_add at time `now` (esp_timer_get_time); `writeStatus`
        is what nvs_set_blob answers and `countStatus` what the count write
        answers, which the code does not look at */
    method Add(level: char, tag: CString, message: CString, now: I64, writeStatus: EspErr, countStatus: EspErr)
      modifies nvs, this`added
      ensures var c := Count(old(nvs.u32s));
        var e := MakeEntry(now, level, tag, message);
        if initialized && writeStatus == ESP_OK then
          && nvs.blobs == old(nvs.blobs)[SlotKey(c % MAX_LOG_ENTRIES) := e]
          && nvs.u32s == (if countStatus == ESP_OK then old(nvs.u32s)[COUNT_KEY := (c + 1) % U32_LIMIT] else old(nvs.u32s))
          && (old(Valid()) && countStatus == ESP_OK && c + 1 < U32_LIMIT ==> added == old(added) + [e])
          && (countStatus != ESP_OK ==> added == old(added))
        else
          nvs.blobs == old(nvs.blobs) && nvs.u32s == old(nvs.u32s) && added == old(added)
      ensures old(Valid()) && (countStatus == ESP_OK || Count(old(nvs.u32s)) < MAX_LOG_ENTRIES) ==> Valid()
    {
      if !initialized {
        return;
      }
      var count := new Out<U32>(0);
      var st := nvs.GetU32(COUNT_KEY, count);
      var entry := LogEntry(now, level, BoundedCopy(tag, TAG_SIZE), BoundedCopy(message, MESSAGE_SIZE));
      Store(count.value, entry, writeStatus, countStatus);
    }

    /** The stores of persistent_log_add once the count is read: the blob in
        slot count mod 1000, then, if that succeeded, the incremented count */
    method Store(count: U32, entry: LogEntry, writeStatus: EspErr, countStatus: EspErr)
      requires count == Count(nvs.u32s)
      modifies nvs, this`added
      ensures if writeStatus == ESP_OK then
          && nvs.blobs == old(nvs.blobs)[SlotKey(count % MAX_LOG_ENTRIES) := entry]
          && nvs.u32s == (if countStatus == ESP_OK then old(nvs.u32s)[COUNT_KEY := (count + 1) % U32_LIMIT] else old(nvs.u32s))
          && (old(Valid()) && countStatus == ESP_OK && count + 1 < U32_LIMIT ==> added == old(added) + [entry])
          && (countStatus != ESP_OK ==> added == old(added))
        else
          nvs.blobs == old(nvs.blobs) && nvs.u32s == old(nvs.u32s) && added == old(added)
      ensures old(Valid()) && (countStatus == ESP_OK || count < MAX_LOG_ENTRIES) ==> Valid()
    {
      ghost var u0, b0, a0 := nvs.u32s, nvs.blobs, added;
      ghost var wasRing := Ring(a0, count, b0);
      var key := SlotKey(count % MAX_LOG_ENTRIES);
      var ret := nvs.SetBlob(key, entry, writeStatus);
      if ret != ESP_OK {
        return;
      }
      assert nvs.blobs == b0[key := entry];
      var next := (count + 1) % U32_LIMIT;
      assert next == if count + 1 == U32_LIMIT then 0 else count + 1;
      var ignored := nvs.SetU32(COUNT_KEY, next, countStatus);
      if countStatus != ESP_OK {
        assert nvs.u32s == u0 && added == a0;
        if wasRing && count < MAX_LOG_ENTRIES {
          assert key == SlotKey(|a0|);
          RingKeepsUnseenSlot(a0, b0, entry);
          assert Ring(added, Count(nvs.u32s), nvs.blobs);
        }
        return;
      }
      assert nvs.u32s == u0[COUNT_KEY := next] && Count(nvs.u32s) == next;
      if next == 0 {
        added := [];
        assert Ring(added, Count(nvs.u32s), nvs.blobs);
      } else {
        added := a0 + [entry];
        if wasRing {
          RingAfterAdd(a0, count, b0, entry);
          assert Ring(added, Count(nvs.u32s), nvs.blobs);
        }
      }
    }

    /** persistent_log_dump_and_clear: the lines it prints; it changes
        nothing, so the entries stay stored and the count stays as it was */
    method DumpAndClear() returns (lines: seq<DumpLine>)
      ensures !initialized ==> lines == []
      ensures initialized ==> lines == Formatted(DumpEntries(nvs.blobs, VisitedSlots(Count(nvs.u32s))))
      ensures initialized && Valid() ==> lines == Formatted(added[WindowStart(|added|)..])
    {
      lines := [];
      if !initialized {
        return;
      }
      var count := new Out<U32>(0);
      var st := nvs.GetU32(COUNT_KEY, count);
      if count.value == 0 {
        return;
      }
      var start := if count.value > MAX_LOG_ENTRIES then count.value - MAX_LOG_ENTRIES else 0;
      var n := if count.value > MAX_LOG_ENTRIES then MAX_LOG_ENTRIES else count.value;
      ghost var v := VisitedSlots(count.value);
      assert start == WindowStart(count.value) && n == WindowLength(count.value) == |v|;
      for i := 0 to n
        invariant lines == Formatted(DumpEntries(nvs.blobs, v[..i]))
      {
        var slot := (start + i) % MAX_LOG_ENTRIES;
        assert v[i] == slot;
        DumpStep(nvs.blobs, v, i);
        var r, e := nvs.GetBlob(SlotKey(slot));
        if r == ESP_OK {
          lines := lines + [Format(e)];
        }
      }
      assert v[..n] == v;
      if Valid() {
        DumpWholeWindow(added, nvs.blobs);
      }
    }

    /** persistent_log_get_count */
    method GetCount() returns (c: U32)
      ensures c == if initialized then Count(nvs.u32s) else 0
      ensures initialized && Valid() ==> c == |added|
    {
      if !initialized {
        return 0;
      }
      var count := new Out<U32>(0);
      var st := nvs.GetU32(COUNT_KEY, count);
      c := count.value;
    }

    /** persistent_log_clear: the count becomes 0, the blobs stay;
        `countStatus` is what the count write answers */
    method Clear(countStatus: EspErr)
      modifies nvs`u32s, this`added
      ensures initialized && countStatus == ESP_OK ==> nvs.u32s == old(nvs.u32s)[COUNT_KEY := 0] && added == []
      ensures !(initialized && countStatus == ESP_OK) ==> nvs.u32s == old(nvs.u32s) && added == old(added)
      ensures old(Valid()) || (initialized && countStatus == ESP_OK) ==> Valid()
    {
      if !initialized {
        return;
      }
      var ignored := nvs.SetU32(COUNT_KEY, 0, countStatus);
      if countStatus == ESP_OK {
        added := [];
      }
    }
  }

  /** Adding entry e in slot count mod 1000 and counting it keeps the ring:
      the slot it overwrites held the one entry that leaves the window. */
  lemma RingAfterAdd(added: seq<LogEntry>, count: nat, blobs: map<string, LogEntry>, e: LogEntry)
    requires Ring(added, count, blobs)
    ensures Ring(added + [e], count + 1, blobs[SlotKey(count % MAX_LOG_ENTRIES) := e])
  {
    var blobs' := blobs[SlotKey(count % MAX_LOG_ENTRIES) := e];
    var added' := added + [e];
    forall j | WindowStart(count + 1) <= j < count + 1
      ensures SlotHolds(added', blobs', j)
    {
      if j < count {
        RingSlot(added, blobs, j);
        SlotsApart(j, count);
        SlotKeys(j % MAX_LOG_ENTRIES, count % MAX_LOG_ENTRIES);
      }
    }
  }

  /** A blob written to slot count mod 1000 whose count write is lost keeps
      the ring while fewer than 1000 entries are stored: that slot lies
      outside the window, so the dump never shows the entry. */
  lemma RingKeepsUnseenSlot(added: seq<LogEntry>, blobs: map<string, LogEntry>, e: LogEntry)
    requires Ring(added, |added|, blobs) && |added| < MAX_LOG_ENTRIES
    ensures Ring(added, |added|, blobs[SlotKey(|added|) := e])
  {
    var n := |added|;
    var blobs' := blobs[SlotKey(n) := e];
    assert WindowStart(n) == 0;
    forall j | 0 <= j < n
      ensures SlotHolds(added, blobs', j)
    {
      assert j % MAX_LOG_ENTRIES == j;
      RingSlot(added, blobs, j);
      SlotKeys(j, n);
      assert SlotKey(j) != SlotKey(n);
    }
  }

  /** With 1000 or more entries stored, a blob write whose count write is
      lost overwrites the oldest entry of the window while the count stays:
      the ring breaks, and the dump shows the new entry first, in the place
      of the oldest. */
  lemma LostCountShowsNewestFirst(added: seq<LogEntry>, blobs: map<string, LogEntry>, e: LogEntry)
    requires Ring(added, |added|, blobs) && |added| >= MAX_LOG_ENTRIES
    requires e != added[|added| - MAX_LOG_ENTRIES]
    ensures !Ring(added, |added|, blobs[SlotKey(|added| % MAX_LOG_ENTRIES) := e])
    ensures DumpEntries(blobs[SlotKey(|added| % MAX_LOG_ENTRIES) := e], VisitedSlots(|added|))
            == [e] + added[|added| - MAX_LOG_ENTRIES + 1..]
  {
    var n := |added|;
    var start := n - MAX_LOG_ENTRIES;
    var blobs' := blobs[SlotKey(n % MAX_LOG_ENTRIES) := e];
    var shown := added[start := e];
    assert start % MAX_LOG_ENTRIES == n % MAX_LOG_ENTRIES;
    assert !SlotHolds(added, blobs', start);
    forall j | WindowStart(n) <= j < n
      ensures SlotHolds(shown, blobs', j)
    {
      if j != start {
        RingSlot(added, blobs, j);
        SlotsApart(start, j);
        SlotKeys(j % MAX_LOG_ENTRIES, n % MAX_LOG_ENTRIES);
        assert shown[j] == added[j];
      }
    }
    DumpWholeWindow(shown, blobs');
    assert shown[start..] == [e] + added[start + 1..];
  }
}

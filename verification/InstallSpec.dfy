/** The installer's decisions as functions of memory and the wrapper. */
module InstallSpec {
  import opened Bytes
  import opened O65
  import opened O65Header
  import opened O65Load

  const HATABS: nat := 0x031a
  const HATABS_BYTES: nat := 33
  const MEMTOP: nat := 0x02e5
  const MEMLO: nat := 0x02e7
  const SDLSTL: nat := 0x0230
  const SAVMSC: nat := 0x0058
  const STACK_RESERVE: nat := 0x0800
  const LOADER_START: nat := 0x6000
  const DEVICE_N: byte := 0x4e
  const MODULE_PTR: nat := 0x6e16       // STAGE plus the wrapper
  const WRAPPER: nat := 22
  const STAGED: nat := 48
  const PAGE_94: nat := 0x94

  const OUT_INSTALLED := 0
  const OUT_OWN := 1
  const OUT_INIT_FAILED := 2
  const OUT_MEMORY := 3
  const OUT_FOREIGN := 4
  const OUT_NO_SLOT := 5
  const OUT_FORMAT := 6

  const MARKER: seq<byte> := [0x46, 0x4e, 0x41, 0x31]     // "FNA1"

  function MemWord(mem: seq<byte>, a: nat): nat
    requires a + 1 < |mem|
  {
    U16(mem[a], mem[a + 1])
  }

  /** The words of an FNR1 wrapper the installer uses. */
  datatype Wrapper = Wrapper(entry: nat, table: nat, marker: nat, moduleLen: nat, alloc: nat)

  function WrapperOf(stage: seq<byte>): Wrapper
    requires |stage| == STAGED
  {
    Wrapper(MemWord(stage, 6), MemWord(stage, 8), MemWord(stage, 10), MemWord(stage, 12), MemWord(stage, 14))
  }

  /** `validate_wrapper`. */
  predicate WrapperOk(stage: seq<byte>)
    requires |stage| == STAGED
  {
    && stage[0] == 0x46 && stage[1] == 0x4e && stage[2] == 0x52 && stage[3] == 0x31     // "FNR1"
    && stage[4] == 1 && stage[5] == WRAPPER
    && MemWord(stage, 20) == ZP_SIZE
    && MemWord(stage, 18) == 0
    && InBudget(stage[14], stage[15])
    && MemWord(stage, 12) != 0
    && MODULE_PTR + MemWord(stage, 12) < WORD
  }

  /** The wrapper's offsets lie inside its allocation; the loader does not check. */
  predicate OffsetsInside(w: Wrapper) {
    w.table + 16 <= w.alloc && w.marker + 4 <= w.alloc && w.entry < w.alloc
  }

  /** The wrapper's words as they stand in its bytes, low byte first. */
  lemma WrapperInBytes(stage: seq<byte>)
    requires |stage| == 48
    ensures var s: seq<int> := stage;
            WrapperOf(stage) == Wrapper(s[6] + 256 * s[7], s[8] + 256 * s[9], s[10] + 256 * s[11],
                                        s[12] + 256 * s[13], s[14] + 256 * s[15])
    ensures var s: seq<int> := stage;
            WrapperOk(stage) <==>
            && s[..6] == [0x46, 0x4e, 0x52, 0x31, 1, 22]
            && s[20] == 26 && s[21] == 0 && s[18] == 0 && s[19] == 0
            && s[14] + 256 * s[15] < 0x0be7
            && 0 < s[12] + 256 * s[13] < 65536 - 0x6e16
  {
    var s: seq<int> := stage;
    assert s[..6] == [s[0], s[1], s[2], s[3], s[4], s[5]];
  }

  // ----------------------------------------------------------------- ownership

  predicate HasMarker(mem: seq<byte>, at: nat)
    requires Bytes64K(mem)
  {
    forall i :: 0 <= i < 4 ==> mem[(at + i) % WORD] == MARKER[i]
  }

  datatype Scan = Empty(x: nat) | Own(x: nat, base: nat) | Foreign | NoSlot

  /** An N: entry is ours if it points at our table offset above a base that
      lies below MEMLO and carries the marker. */
  function Owner(mem: seq<byte>, w: Wrapper, x: nat): Scan
    requires Bytes64K(mem) && x < HATABS_BYTES
  {
    var table := MemWord(mem, HATABS + x + 1);
    if table < w.table then Foreign
    else if table - w.table >= MemWord(mem, MEMLO) then Foreign
    else if !HasMarker(mem, table - w.table + w.marker) then Foreign
    else Own(x, table - w.table)
  }

  /** `scan_hatabs` from entry x on. */
  function ScanFrom(mem: seq<byte>, w: Wrapper, x: nat): Scan
    requires Bytes64K(mem)
    decreases HATABS_BYTES - x
  {
    if x >= HATABS_BYTES then NoSlot
    else if mem[HATABS + x] == 0 then Empty(x)
    else if mem[HATABS + x] == DEVICE_N then Owner(mem, w, x)
    else ScanFrom(mem, w, x + 3)
  }

  /** The two bytes at a as a number. */
  function At(mem: seq<byte>, a: nat): nat
    requires Bytes64K(mem) && a + 1 < MEMORY
  {
    mem[a] as nat + 256 * (mem[a + 1] as nat)
  }

  lemma WordIs(mem: seq<byte>, a: nat)
    requires Bytes64K(mem) && a + 1 < MEMORY
    ensures MemWord(mem, a) == At(mem, a) < 65536
  {
  }

  /** x is the first of the eleven entries of HATABS that is empty or N:. */
  predicate FirstEntry(mem: seq<byte>, x: nat)
    requires Bytes64K(mem)
  {
    && x < 33 && x % 3 == 0 && (mem[0x031a + x] == 0 || mem[0x031a + x] == 0x4e)
    && forall y :: 0 <= y < x && y % 3 == 0 ==> mem[0x031a + y] != 0 && mem[0x031a + y] != 0x4e
  }

  /** The N: entry at x leads to a table at our offset from a base below MEMLO, and
      "FNA1" stands at our marker offset from that base. */
  predicate Ours(mem: seq<byte>, w: Wrapper, x: nat)
    requires Bytes64K(mem) && x < 33
  {
    var base := At(mem, 0x031b + x) as int - w.table;
    && 0 <= base < At(mem, 0x02e7)
    && mem[(base + w.marker) % 65536] == 0x46 && mem[(base + w.marker + 1) % 65536] == 0x4e
    && mem[(base + w.marker + 2) % 65536] == 0x41 && mem[(base + w.marker + 3) % 65536] == 0x31
  }

  lemma MarkerInBytes(mem: seq<byte>, at: nat)
    requires Bytes64K(mem)
    ensures HasMarker(mem, at) <==> mem[at % 65536] == 0x46 && mem[(at + 1) % 65536] == 0x4e
                                    && mem[(at + 2) % 65536] == 0x41 && mem[(at + 3) % 65536] == 0x31
  {
    if HasMarker(mem, at) {
      assert mem[(at + 0) % WORD] == MARKER[0] && mem[(at + 1) % WORD] == MARKER[1];
      assert mem[(at + 2) % WORD] == MARKER[2] && mem[(at + 3) % WORD] == MARKER[3];
    }
  }

  lemma OwnerInBytes(mem: seq<byte>, w: Wrapper, x: nat)
    requires Bytes64K(mem) && x < 33
    ensures var s := Owner(mem, w, x);
            if Ours(mem, w, x) then s.Own? && s.x == x && s.base + w.table == At(mem, 0x031b + x) else s == Foreign
  {
    hide HasMarker;
    var table := At(mem, 0x031b + x);
    if table >= w.table {
      MarkerInBytes(mem, table - w.table + w.marker);
    }
  }

  /** The scan decides on the first entry that is empty or N:. */
  lemma {:induction false} ScanStops(mem: seq<byte>, w: Wrapper, x: nat, e: nat)
    requires Bytes64K(mem) && FirstEntry(mem, e) && x <= e && x % 3 == 0
    ensures ScanFrom(mem, w, x) == if mem[0x031a + e] == 0 then Empty(e) else Owner(mem, w, e)
    decreases e - x
  {
    if x < e {
      ScanStops(mem, w, x + 3, e);
    }
  }

  lemma {:induction false} ScanFinds(mem: seq<byte>, w: Wrapper, x: nat) returns (e: nat)
    requires Bytes64K(mem) && x <= 33 && x % 3 == 0
    requires forall y :: 0 <= y < x && y % 3 == 0 ==> mem[0x031a + y] != 0 && mem[0x031a + y] != 0x4e
    ensures ScanFrom(mem, w, x) == NoSlot || FirstEntry(mem, e)
    decreases 33 - x
  {
    e := x;
    if x < 33 && mem[0x031a + x] != 0 && mem[0x031a + x] != 0x4e {
      e := ScanFinds(mem, w, x + 3);
    }
  }

  /** What the first entry, at x, decides. */
  predicate Decides(mem: seq<byte>, w: Wrapper, x: nat, s: Scan)
    requires Bytes64K(mem) && x < 33
  {
    if mem[0x031a + x] == 0 then s == Empty(x)
    else if Ours(mem, w, x) then s.Own? && s.x == x && s.base + w.table == At(mem, 0x031b + x)
    else s == Foreign
  }

  /** The scan is decided by the first entry that is empty or N:, if there is one. */
  lemma ScanInBytes(mem: seq<byte>, w: Wrapper)
    requires Bytes64K(mem)
    ensures forall x: nat :: FirstEntry(mem, x) ==> Decides(mem, w, x, ScanFrom(mem, w, 0))
    ensures (forall x: nat :: !FirstEntry(mem, x)) ==> ScanFrom(mem, w, 0) == NoSlot
  {
    hide Owner, ScanFrom;
    forall x: nat | FirstEntry(mem, x) ensures Decides(mem, w, x, ScanFrom(mem, w, 0)) {
      ScanStops(mem, w, 0, x);
      OwnerInBytes(mem, w, x);
    }
    var e := ScanFinds(mem, w, 0);
  }

  lemma {:induction false} EmptySlotIsInTable(mem: seq<byte>, w: Wrapper, x: nat)
    requires Bytes64K(mem)
    ensures ScanFrom(mem, w, x).Empty? ==>
              x <= ScanFrom(mem, w, x).x < HATABS_BYTES && mem[HATABS + ScanFrom(mem, w, x).x] == 0
    decreases HATABS_BYTES - x
  {
    if x < HATABS_BYTES && mem[HATABS + x] != 0 && mem[HATABS + x] != DEVICE_N {
      EmptySlotIsInTable(mem, w, x + 3);
    }
  }

  // -------------------------------------------------------------------- ranges

  datatype Range = NoRange | Range(start: nat, end: nat)

  /** MEMLO rounded up to even, in sixteen bits. */
  function Aligned(memlo: nat): nat {
    if memlo % 2 == 0 then memlo else (memlo + 1) % WORD
  }

  /** `calculate_ranges`: below the installer, the stack floor, the display
      list and the screen. */
  function Ranges(memlo: nat, alloc: nat, floor: nat, sdlstl: nat, savmsc: nat): Range {
    var start := Aligned(memlo);
    var end := start + alloc;
    if end >= WORD || end > LOADER_START || end >= floor || end >= sdlstl || end >= savmsc then NoRange
    else Range(start, end)
  }

  /** The allocation starts at or above MEMLO exactly when MEMLO is not $FFFF,
      where the rounding wraps to 0. */
  lemma RangeAboveMemlo(memlo: nat, alloc: nat, floor: nat, sdlstl: nat, savmsc: nat)
    requires memlo < WORD && Ranges(memlo, alloc, floor, sdlstl, savmsc).Range?
    ensures var r := Ranges(memlo, alloc, floor, sdlstl, savmsc);
            && (r.start >= memlo <==> memlo != 0xffff)
            && (memlo != 0xffff ==> r.start <= memlo + 1 && r.start % 2 == 0)
            && r.end == r.start + alloc && r.end <= LOADER_START && r.end < floor && r.end < sdlstl && r.end < savmsc
  {
  }

  /** At $FFFF there can be a range: the whole low end of memory. */
  lemma RangeAtTheTop()
    ensures Ranges(0xffff, 3000, 0x9400, 0x9c20, 0x9c40) == Range(0, 3000)
  {
  }

  /** The stack floor as `init_result` records it. */
  function StackFloor(memtop: nat): nat
    requires memtop < WORD
  {
    (memtop + WORD - STACK_RESERVE) % WORD
  }

  /** The range the installer computes from memory alone. */
  function RangeIn(mem: seq<byte>, alloc: nat): Range
    requires Bytes64K(mem)
  {
    Ranges(MemWord(mem, MEMLO), alloc, StackFloor(MemWord(mem, MEMTOP)), MemWord(mem, SDLSTL), MemWord(mem, SAVMSC))
  }

  /** The range byte by byte, and when there is one: from the two bytes at $02E7,
      rounded up to even, to an end not above $6000 and below the three bounds,
      which are the words at $02E5 less $0800, at $0230 and at $0058. */
  lemma RangeInBytes(mem: seq<byte>, alloc: nat)
    requires Bytes64K(mem)
    ensures var memlo := At(mem, 0x02e7);
            var start := if memlo % 2 == 0 then memlo else (memlo + 1) % 65536;
            var end := start + alloc;
            RangeIn(mem, alloc) ==
            if end <= 0x6000 && end < (At(mem, 0x02e5) + 0xf800) % 65536
               && end < At(mem, 0x0230) && end < At(mem, 0x0058)
            then Range(start, end) else NoRange
  {
    hide MemWord, At, StackFloor;
    WordIs(mem, 0x02e7);
    WordIs(mem, 0x02e5);
    WordIs(mem, 0x0230);
    WordIs(mem, 0x0058);
    FloorIs(At(mem, 0x02e5));
  }

  lemma FloorIs(memtop: nat)
    requires memtop < 65536
    ensures StackFloor(memtop) == (memtop + 0xf800) % 65536
  {
  }

  /** The vectors are stored minus one; the byte they lead to must be resident. */
  predicate VectorsInside(mem: seq<byte>, table: nat, start: nat, end: nat)
    requires Bytes64K(mem) && table + 12 <= MEMORY
  {
    forall k :: 0 <= k < 6 ==> start <= (MemWord(mem, table + 2 * k) + 1) % WORD < end
  }

  lemma VectorsInBytes(mem: seq<byte>, table: nat, start: nat, end: nat)
    requires Bytes64K(mem) && table + 12 <= MEMORY
    ensures VectorsInside(mem, table, start, end) <==>
            forall k :: 0 <= k < 6 ==> start <= (At(mem, table + 2 * k) + 1) % 65536 < end
  {
    forall k | 0 <= k < 6 ensures At(mem, table + 2 * k) == MemWord(mem, table + 2 * k) {
      WordIs(mem, table + 2 * k);
    }
  }

  /** All transient scratch, up to $93a8, lies below the live bounds. */
  predicate ScratchBelow(floor: nat, sdlstl: nat, savmsc: nat) {
    floor / 256 >= PAGE_94 && sdlstl / 256 >= PAGE_94 && savmsc / 256 >= PAGE_94
  }

  /** The header can be fetched: scratch fits, an IOCB is free, the file has it. */
  predicate CanStage(mem: seq<byte>, iocbs: seq<byte>, file: seq<byte>)
    requires Bytes64K(mem) && |iocbs| == 128
  {
    && ScratchBelow(StackFloor(MemWord(mem, MEMTOP)), MemWord(mem, SDLSTL), MemWord(mem, SAVMSC))
    && (exists k :: 1 <= k <= 7 && iocbs[16 * k] == 0xff)
    && |file| >= STAGED && WrapperOk(file[..STAGED])
  }

  /** The same byte by byte: the three bounds lie at $9400 or above, one of the
      IOCBs 1 to 7 is free, and the file begins with a wrapper. */
  lemma StageInBytes(mem: seq<byte>, iocbs: seq<byte>, file: seq<byte>)
    requires Bytes64K(mem) && |iocbs| == 128
    ensures CanStage(mem, iocbs, file) <==>
            && (At(mem, 0x02e5) + 0xf800) % 65536 >= 0x9400 && At(mem, 0x0230) >= 0x9400 && At(mem, 0x0058) >= 0x9400
            && 0xff in [iocbs[0x10], iocbs[0x20], iocbs[0x30], iocbs[0x40], iocbs[0x50], iocbs[0x60], iocbs[0x70]]
            && |file| >= 48 && WrapperOk(file[..48])
  {
    hide WrapperOk;
    FreeIocb(iocbs);
  }

  lemma FreeIocb(iocbs: seq<byte>)
    requires |iocbs| == 128
    ensures (exists k :: 1 <= k <= 7 && iocbs[16 * k] == 0xff) <==>
            0xff in [iocbs[0x10], iocbs[0x20], iocbs[0x30], iocbs[0x40], iocbs[0x50], iocbs[0x60], iocbs[0x70]]
  {
    var s := [iocbs[0x10], iocbs[0x20], iocbs[0x30], iocbs[0x40], iocbs[0x50], iocbs[0x60], iocbs[0x70]];
    assert forall k :: 1 <= k <= 7 ==> s[k - 1] == iocbs[16 * k];
    if 0xff in s {
      var i :| 0 <= i < |s| && s[i] == 0xff;
      assert iocbs[16 * (i + 1)] == 0xff;
    }
  }

  /** Where an install of this file would go. */
  function Target(mem: seq<byte>, file: seq<byte>): Range
    requires Bytes64K(mem)
  {
    if |file| < STAGED || !WrapperOk(file[..STAGED]) then NoRange
    else if !ScanFrom(mem, WrapperOf(file[..STAGED]), 0).Empty? then NoRange
    else RangeIn(mem, WrapperOf(file[..STAGED]).alloc)
  }

  /** The first entry of HATABS is empty, ours, or somebody else's. */
  ghost predicate Vacant(mem: seq<byte>)
    requires Bytes64K(mem)
  {
    exists x: nat :: FirstEntry(mem, x) && mem[0x031a + x] == 0
  }

  ghost predicate Resident(mem: seq<byte>, w: Wrapper)
    requires Bytes64K(mem)
  {
    exists x: nat :: FirstEntry(mem, x) && mem[0x031a + x] == 0x4e && Ours(mem, w, x)
  }

  ghost predicate Taken(mem: seq<byte>, w: Wrapper)
    requires Bytes64K(mem)
  {
    exists x: nat :: FirstEntry(mem, x) && mem[0x031a + x] == 0x4e && !Ours(mem, w, x)
  }

  /** The outcome by its number: 1 where N: is ours, and then with its range; 4
      where it is not; 5 where the table is full; 3 where the module does not fit. */
  ghost predicate Reported(mem: seq<byte>, w: Wrapper, outcome: nat, start: nat, end: nat)
    requires Bytes64K(mem)
  {
    && (outcome == 1 <==> Resident(mem, w))
    && (outcome == 4 <==> Taken(mem, w))
    && (outcome == 5 <==> !Vacant(mem) && !Resident(mem, w) && !Taken(mem, w))
    && (outcome == 3 <==> Vacant(mem) && RangeIn(mem, w.alloc).NoRange?)
    && (outcome == 1 ==>
          && (forall x: nat :: FirstEntry(mem, x) ==> start + w.table == At(mem, 0x031b + x))
          && end == (start + w.alloc) % 65536)
  }

  /** The three cases of the scan. */
  lemma ScanCases(mem: seq<byte>, w: Wrapper)
    requires Bytes64K(mem)
    ensures var s := ScanFrom(mem, w, 0);
            && (s.Empty? <==> Vacant(mem)) && (s.Own? <==> Resident(mem, w)) && (s.Foreign? <==> Taken(mem, w))
            && (s.Own? ==> forall x: nat :: FirstEntry(mem, x) ==> s.base + w.table == At(mem, 0x031b + x))
  {
    hide ScanFrom, Ours;
    ScanInBytes(mem, w);
    var s := ScanFrom(mem, w, 0);
    if x: nat :| FirstEntry(mem, x) {
      assert Decides(mem, w, x, s);
    }
  }

  lemma ReportedAsScanned(mem: seq<byte>, w: Wrapper, outcome: nat, start: nat, end: nat)
    requires Bytes64K(mem)
    requires var s := ScanFrom(mem, w, 0);
             && (s.Own? ==> outcome == OUT_OWN && start == s.base && end == (s.base + w.alloc) % WORD)
             && (s.Foreign? ==> outcome == OUT_FOREIGN) && (s.NoSlot? ==> outcome == OUT_NO_SLOT)
             && (s.Empty? && RangeIn(mem, w.alloc).NoRange? ==> outcome == OUT_MEMORY)
             && (s.Empty? && RangeIn(mem, w.alloc).Range? ==>
                   outcome == OUT_INSTALLED || outcome == OUT_FORMAT || outcome == OUT_INIT_FAILED)
    ensures Reported(mem, w, outcome, start, end)
  {
    hide ScanFrom, Vacant, Resident, Taken, FirstEntry;
    ScanCases(mem, w);
  }

  /** Nothing is touched but the target range and the byte below it. */
  predicate Untouched(before: seq<byte>, after: seq<byte>, target: Range)
    requires Bytes64K(before) && Bytes64K(after)
  {
    match target
    case NoRange => after == before
    case Range(start, end) => start > 0 && SameOutside(before, after, start - 1, end)
  }

  // ----------------------------------------------------------------- idempotence

  /** From the loaded image to the end: the entry point works inside the range
      but leaves the table alone, one HATABS entry and MEMLO are written. */
  ghost predicate Published(loaded: seq<byte>, after: seq<byte>, w: Wrapper, x: nat, start: nat, end: nat)
    requires Bytes64K(loaded) && Bytes64K(after)
  {
    && x < HATABS_BYTES && OffsetsInside(w) && start + w.alloc == end <= LOADER_START
    && SameElsewhere(loaded, after, x, start, end)
    && (forall a :: start + w.table <= a < start + w.table + 16 ==> after[a] == loaded[a])
    && after[HATABS + x] == DEVICE_N && MemWord(after, HATABS + x + 1) == start + w.table
    && MemWord(after, MEMLO) == end
    && HasMarker(after, start + w.marker)
    && VectorsInside(after, start + w.table, start, end)
  }

  /** What is published, byte by byte: the entry, the new $02E7, and six vectors of
      which each, plus one, leads into the range. */
  lemma PublishedInBytes(loaded: seq<byte>, after: seq<byte>, w: Wrapper, x: nat, start: nat, end: nat)
    requires Bytes64K(loaded) && Bytes64K(after) && Published(loaded, after, w, x, start, end)
    ensures x < 33 && after[0x031a + x] == 0x4e && At(after, 0x031b + x) == start + w.table
    ensures At(after, 0x02e7) == end == start + w.alloc <= 0x6000 && start + w.table + 12 <= end
    ensures forall k :: 0 <= k < 6 ==> start <= (At(after, start + w.table + 2 * k) + 1) % 65536 < end
    ensures after[start + w.marker] == 0x46 && after[start + w.marker + 1] == 0x4e
            && after[start + w.marker + 2] == 0x41 && after[start + w.marker + 3] == 0x31
  {
    hide HasMarker, VectorsInside, SameElsewhere, MemWord, At;
    WordIs(after, 0x031b + x);
    WordIs(after, 0x02e7);
    MarkerStands(after, start + w.marker);
    VectorsInBytes(after, start + w.table, start, end);
  }

  lemma MarkerStands(mem: seq<byte>, at: nat)
    requires Bytes64K(mem) && at + 4 <= 65536 && HasMarker(mem, at)
    ensures mem[at] == 0x46 && mem[at + 1] == 0x4e && mem[at + 2] == 0x41 && mem[at + 3] == 0x31
  {
    hide HasMarker;
    MarkerInBytes(mem, at);
  }

  /** The only lasting writes are the range, one HATABS entry, and MEMLO. */
  predicate SameElsewhere(before: seq<byte>, after: seq<byte>, x: nat, start: nat, end: nat)
    requires Bytes64K(before) && Bytes64K(after)
  {
    forall a :: 0 <= a < MEMORY && !Writable(a, x, start, end) ==> after[a] == before[a]
  }

  predicate Writable(a: nat, x: nat, start: nat, end: nat) {
    start <= a < end || HATABS + x <= a < HATABS + x + 3 || a == MEMLO || a == MEMLO + 1
  }

  predicate SameOutside(before: seq<byte>, after: seq<byte>, lo: nat, hi: nat)
    requires Bytes64K(before) && Bytes64K(after)
  {
    forall a :: 0 <= a < MEMORY && !(lo <= a < hi) ==> after[a] == before[a]
  }

  /** What a successful install leaves behind: a published image that was loaded
      where memory said it could be. */
  ghost predicate Installed(before: seq<byte>, loaded: seq<byte>, after: seq<byte>, w: Wrapper)
    requires Bytes64K(before) && Bytes64K(loaded) && Bytes64K(after)
  {
    var s, r := ScanFrom(before, w, 0), RangeIn(before, w.alloc);
    && s.Empty? && r.Range? && r.start > 0
    && SameOutside(before, loaded, r.start - 1, r.end)
    && Published(loaded, after, w, s.x, r.start, r.end)
  }

  /** Scanning again with the same wrapper finds the entry just published. */
  lemma {:induction false} ScanReaches(before: seq<byte>, after: seq<byte>, w: Wrapper, x: nat, e: nat)
    requires Bytes64K(before) && Bytes64K(after) && ScanFrom(before, w, x) == Empty(e) && e < HATABS_BYTES
    requires forall a :: HATABS + x <= a < HATABS + e ==> after[a] == before[a]
    requires after[HATABS + e] == DEVICE_N
    ensures ScanFrom(after, w, x) == Owner(after, w, e)
    decreases HATABS_BYTES - x
  {
    EmptySlotIsInTable(before, w, x);
    if x < e {
      ScanReaches(before, after, w, x + 3, e);
    }
  }

  lemma InstalledIsFound(before: seq<byte>, loaded: seq<byte>, after: seq<byte>, w: Wrapper)
    requires Bytes64K(before) && Bytes64K(loaded) && Bytes64K(after) && Installed(before, loaded, after, w)
    requires 0x0700 <= MemWord(before, MEMLO) < 0xffff
    ensures ScanFrom(after, w, 0) == Own(ScanFrom(before, w, 0).x, RangeIn(before, w.alloc).start)
  {
    hide HasMarker, VectorsInside, U16;
    var s, r := ScanFrom(before, w, 0), RangeIn(before, w.alloc);
    RangeStart(before, w.alloc);
    forall a | HATABS <= a < HATABS + s.x ensures after[a] == before[a] {
      assert !Writable(a, s.x, r.start, r.end);
    }
    ScanReaches(before, after, w, 0, s.x);
  }

  lemma RangeStart(mem: seq<byte>, alloc: nat)
    requires Bytes64K(mem) && RangeIn(mem, alloc).Range? && 0x0700 <= MemWord(mem, MEMLO) < 0xffff
    ensures var r := RangeIn(mem, alloc);
            0x0700 <= MemWord(mem, MEMLO) <= r.start && r.end == r.start + alloc <= LOADER_START
  {
  }

  /** The whole footprint of an install: unless the module relocates a WORD at
      offset $FFFF, memory changes nowhere but in the range, one HATABS entry
      and MEMLO. */
  lemma InstalledFootprint(before: seq<byte>, loaded: seq<byte>, after: seq<byte>, w: Wrapper, header: seq<byte>,
                           zp: nat, body: seq<byte>)
    requires Bytes64K(before) && Bytes64K(loaded) && Bytes64K(after) && |header| == HEADER_SIZE
    requires Installed(before, loaded, after, w) && SumsFit(SizesOf(header)) && ModuleNoStray(SizesOf(header), body)
    requires LoadsTo(before, header, w.alloc, zp, body, RangeIn(before, w.alloc).start, loaded)
    ensures SameElsewhere(before, after, ScanFrom(before, w, 0).x, RangeIn(before, w.alloc).start,
                          RangeIn(before, w.alloc).end)
  {
    hide HasMarker, VectorsInside, U16, ScanFrom, Load, ModuleNoStray, HeaderAccepted, SizesOf;
    var start := RangeIn(before, w.alloc).start;
    AllocIsTotal(header, w.alloc, zp);
    AnyLoadStays(before, SizesOf(header), body, start);
  }

  /** The payload built from an image is resident, relocated, when published. */
  lemma InstalledImage(before: seq<byte>, loaded: seq<byte>, header: seq<byte>, alloc: nat, zp: nat, img: Image,
                       start: nat)
    requires Bytes64K(before) && Bytes64K(loaded) && |header| == HEADER_SIZE && ImageOk(img)
    requires SizesOf(header) == ImageSizes(img) && start < WORD
    requires LoadsTo(before, header, alloc, zp, EncodeBody(img), start, loaded)
    ensures start + Total(ImageSizes(img)) <= MEMORY && LoadedAt(Linked(before, img, start), loaded, img, start)
  {
    hide Load, EncodeBody, LoadedAt, HeaderAccepted;
    LoadingPreservesMeaning(before, img, start);
  }

  /** An install leaves the live bounds as they were, and MEMLO at its end. */
  lemma InstalledKeepsBounds(before: seq<byte>, loaded: seq<byte>, after: seq<byte>, w: Wrapper, iocbs: seq<byte>,
                             file: seq<byte>)
    requires Bytes64K(before) && Bytes64K(loaded) && Bytes64K(after) && |iocbs| == 128
    requires Installed(before, loaded, after, w) && 0x0700 <= MemWord(before, MEMLO) < 0xffff
    ensures CanStage(after, iocbs, file) == CanStage(before, iocbs, file)
    ensures RangeIn(before, w.alloc).Range? && MemWord(after, MEMLO) == RangeIn(before, w.alloc).end
    ensures RangeIn(before, w.alloc).end == RangeIn(before, w.alloc).start + w.alloc
    ensures 0x0700 <= MemWord(after, MEMLO) <= LOADER_START
  {
    hide HasMarker, VectorsInside, U16, ScanFrom, WrapperOk, StackFloor, ScratchBelow, Ranges;
    RangeStart(before, w.alloc);
    var s, r := ScanFrom(before, w, 0), RangeIn(before, w.alloc);
    forall a | a in {MEMTOP, MEMTOP + 1, SDLSTL, SDLSTL + 1, SAVMSC, SAVMSC + 1} ensures after[a] == before[a] {
      assert !Writable(a, s.x, r.start, r.end);
    }
  }
}

/** The installer around the parser: borrow, resolve ownership, load, start,
    publish, and give everything borrowed back on every way out. */
module Installer {
  import opened Bytes
  import opened O65
  import opened O65Header
  import opened O65Load
  import opened InstallSpec
  import opened Disk
  import L = Loader

  const NO_IOCB: nat := 0xff

  /** What became of the entry point. */
  datatype Entry = NotCalled | Returned(status: byte)

  class Installer {
    const p: L.Parser
    const mem: array<byte>
    const zp_save: array<byte>
    const iocb_save: array<byte>

    var base_ptr: nat
    var target_end: nat
    var table_ptr: nat
    var hat_slot: nat
    var init_status: byte
    ghost var entry: Entry

    var r_outcome: nat
    var r_old_memlo: nat
    var r_end: nat
    var r_stack_floor: nat
    var r_sdlstl: nat
    var r_savmsc: nat

    constructor (parser: L.Parser)
      requires parser.Shape()
      ensures Shape() && p == parser
      ensures fresh(zp_save) && fresh(iocb_save)
    {
      p, mem := parser, parser.mem;
      zp_save := new byte[26](_ => 0);
      iocb_save := new byte[16](_ => 0);
      base_ptr, target_end, table_ptr, hat_slot, init_status := 0, 0, 0, 0, 0;
      entry := NotCalled;
      r_outcome, r_old_memlo, r_end, r_stack_floor, r_sdlstl, r_savmsc := 0, 0, 0, 0, 0, 0;
    }

    predicate Shape() {
      && p.Shape() && mem == p.mem && zp_save.Length == 26 && iocb_save.Length == 16
      && zp_save != mem && zp_save != p.bank && zp_save != p.iocbs && zp_save != p.stage && zp_save != p.buffer
      && iocb_save != mem && iocb_save != p.bank && iocb_save != p.iocbs && iocb_save != p.stage
         && iocb_save != p.buffer
      && zp_save != iocb_save
    }

    // ------------------------------------------------------ borrow and give back

    /** `save_caller_zp`. */
    method SaveCallerZp()
      requires Shape()
      modifies zp_save
      ensures zp_save[..] == p.bank[..]
    {
      var x := 25;
      while x >= 0
        invariant -1 <= x <= 25
        invariant forall i :: x < i < 26 ==> zp_save[i] == p.bank[i]
      {
        zp_save[x] := p.bank[x];
        x := x - 1;
      }
    }

    /** `restore_caller_zp`. */
    method RestoreCallerZp()
      requires Shape()
      modifies p.bank
      ensures p.bank[..] == zp_save[..]
    {
      var x := 25;
      while x >= 0
        invariant -1 <= x <= 25
        invariant forall i :: x < i < 26 ==> p.bank[i] == zp_save[i]
      {
        p.bank[x] := zp_save[x];
        x := x - 1;
      }
    }

    /** `init_result`: the bounds live when the installer starts. */
    method InitResult()
      requires Shape()
      modifies `r_outcome, `r_old_memlo, `r_stack_floor, `r_sdlstl, `r_savmsc
      ensures r_outcome == OUT_MEMORY && r_old_memlo == MemWord(mem[..], MEMLO)
      ensures r_stack_floor == StackFloor(MemWord(mem[..], MEMTOP))
      ensures r_sdlstl == MemWord(mem[..], SDLSTL) && r_savmsc == MemWord(mem[..], SAVMSC)
    {
      r_outcome := OUT_MEMORY;
      r_old_memlo := U16(mem[MEMLO], mem[MEMLO + 1]);
      var hi := mem[MEMTOP + 1];
      r_stack_floor := U16(mem[MEMTOP], if hi >= 8 then hi - 8 else hi + 248);
      r_sdlstl := U16(mem[SDLSTL], mem[SDLSTL + 1]);
      r_savmsc := U16(mem[SAVMSC], mem[SAVMSC + 1]);
    }

    /** What is to be given back: the bank as saved, and the borrowed IOCB. */
    ghost predicate Borrowing(bank0: seq<byte>, iocbs0: seq<byte>)
      reads p`disk_iocb, p.iocbs, zp_save, iocb_save
    {
      && Shape() && |iocbs0| == 128 && zp_save[..] == bank0
      && (p.disk_iocb == NO_IOCB || p.disk_iocb <= 112)
      && (p.disk_iocb == NO_IOCB ==> p.iocbs[..] == iocbs0)
      && (p.disk_iocb <= 112 ==>
            && iocb_save[..] == iocbs0[p.disk_iocb..p.disk_iocb + 16]
            && forall i :: 0 <= i < 128 && !(p.disk_iocb <= i < p.disk_iocb + 16) ==> p.iocbs[i] == iocbs0[i])
    }

    /** `disk_close`: close, and put the sixteen borrowed bytes back. */
    method DiskClose(ghost bank0: seq<byte>, ghost iocbs0: seq<byte>)
      requires Borrowing(bank0, iocbs0)
      modifies p`disk_iocb, p.iocbs
      ensures p.iocbs[..] == iocbs0 && p.disk_iocb == NO_IOCB
    {
      if p.disk_iocb >= 0x80 {
        return;
      }
      var x := p.disk_iocb;
      Scribble(p.iocbs, x, x + 16);
      var y := 0;
      while y != 16
        invariant 0 <= y <= 16
        invariant forall i :: x <= i < x + y ==> p.iocbs[i] == iocb_save[i - x]
        invariant forall i :: 0 <= i < 128 && !(x <= i < x + 16) ==> p.iocbs[i] == iocbs0[i]
        decreases 16 - y
      {
        p.iocbs[x + y] := iocb_save[y];
        y := y + 1;
      }
      forall i | 0 <= i < 128 ensures p.iocbs[i] == iocbs0[i] {
        if x <= i < x + 16 {
          assert iocb_save[..][i - x] == iocbs0[x..x + 16][i - x];
        }
      }
      p.disk_iocb := NO_IOCB;
    }

    /** `finish`: the one way out. */
    method Finish(ghost bank0: seq<byte>, ghost iocbs0: seq<byte>)
      requires Borrowing(bank0, iocbs0)
      modifies p`disk_iocb, p.iocbs, p.bank
      ensures p.iocbs[..] == iocbs0 && p.bank[..] == bank0
    {
      DiskClose(bank0, iocbs0);
      RestoreCallerZp();
    }

    // --------------------------------------------------------- open and resolve

    /** All transient scratch lies below the live bounds. */
    predicate ScratchFits()
      reads `r_stack_floor, `r_sdlstl, `r_savmsc
    {
      ScratchBelow(r_stack_floor, r_sdlstl, r_savmsc)
    }

    /** The search for a free IOCB, from $70 down to $10. */
    method FindIocb() returns (found: bool, x: nat)
      requires Shape()
      ensures found ==> 16 <= x <= 112 && x % 16 == 0 && p.iocbs[x] == 0xff
      ensures found <==> exists k :: 1 <= k <= 7 && p.iocbs[16 * k] == 0xff
    {
      x := 112;
      while true
        invariant 16 <= x <= 112 && x % 16 == 0
        invariant forall k :: 1 <= k <= 7 && x < 16 * k ==> p.iocbs[16 * k] != 0xff
        decreases x
      {
        if p.iocbs[x] == 0xff {
          assert p.iocbs[16 * (x / 16)] == 0xff;
          return true, x;
        }
        x := x - 16;
        if x == 0 {
          return false, x;
        }
      }
    }

    /** The sixteen bytes of the IOCB about to be borrowed. */
    method SaveIocb(x: nat)
      requires Shape() && x <= 112
      modifies iocb_save
      ensures iocb_save[..] == p.iocbs[x..x + 16]
    {
      var y := 0;
      while y != 16
        invariant 0 <= y <= 16
        invariant forall i :: 0 <= i < y ==> iocb_save[i] == p.iocbs[x + i]
        decreases 16 - y
      {
        iocb_save[y] := p.iocbs[x + y];
        y := y + 1;
      }
    }

    /** `disk_open_header`: scratch bounds, a free IOCB, OPEN, the 48 bytes. */
    method DiskOpenHeader(ghost bank0: seq<byte>, ghost iocbs0: seq<byte>) returns (ok: bool)
      requires Borrowing(bank0, iocbs0) && p.disk_iocb == NO_IOCB
      modifies p`disk_iocb, p`disk_index, p`disk_count, p.iocbs, p.bank, p.stage, p.disk, iocb_save
      ensures Borrowing(bank0, iocbs0)
      ensures ok ==> ScratchFits() && p.disk_iocb <= 112 && p.disk.pos == STAGED <= |p.disk.file|
                     && p.stage[..] == p.disk.file[..STAGED]
                     && p.disk_index == p.disk_count == 0 && p.disk.failed == old(p.disk.failed)
      ensures !ok ==> !ScratchFits() || |p.disk.file| < STAGED || p.disk.failed
                      || !(exists k :: 1 <= k <= 7 && old(p.iocbs[16 * k]) == 0xff)
      ensures ok ==> exists k :: 1 <= k <= 7 && old(p.iocbs[16 * k]) == 0xff
    {
      if !ScratchFits() {
        return false;
      }
      var found, x := FindIocb();
      if !found {
        return false;
      }
      p.disk_iocb := x;
      SaveIocb(x);
      Scribble(p.iocbs, x, x + 16);
      ok := p.disk.Open();
      if !ok {
        return;
      }
      p.disk_count, p.disk_index := 0, 0;
      Scribble(p.iocbs, x, x + 16);
      ok := p.disk.Get(p.stage, STAGED);
    }

    /** `validate_wrapper`. */
    method ValidateWrapper() returns (ok: bool)
      requires Shape()
      modifies p`module_end, p`src_ptr
      ensures ok <==> WrapperOk(p.stage[..])
      ensures ok ==> p.module_end == MODULE_PTR + WrapperOf(p.stage[..]).moduleLen < WORD
    {
      if p.stage[0] != 0x46 || p.stage[1] != 0x4e || p.stage[2] != 0x52 || p.stage[3] != 0x31 {
        return false;
      }
      if p.stage[4] != 1 || p.stage[5] != WRAPPER || p.stage[20] != ZP_SIZE || p.stage[21] != 0 {
        return false;
      }
      if p.stage[18] != 0 || p.stage[19] != 0 {
        return false;
      }
      if p.stage[15] >= 0x0b && (p.stage[15] != 0x0b || p.stage[14] >= 0xe7) {
        return false;
      }
      if p.stage[12] == 0 && p.stage[13] == 0 {
        return false;
      }
      p.src_ptr := MODULE_PTR;
      p.module_end := MODULE_PTR + U16(p.stage[12], p.stage[13]);
      ok := p.module_end < WORD;
    }

    /** The marker bytes at base plus FNR_MARKER, one by one. */
    method CheckMarker(at: nat) returns (ok: bool)
      requires Shape()
      ensures ok <==> HasMarker(mem[..], at)
    {
      ok := mem[at % WORD] == 0x46 && mem[(at + 1) % WORD] == 0x4e
            && mem[(at + 2) % WORD] == 0x41 && mem[(at + 3) % WORD] == 0x31;
      assert HasMarker(mem[..], at) ==>
          mem[(at + 0) % WORD] == MARKER[0] && mem[(at + 1) % WORD] == MARKER[1]
          && mem[(at + 2) % WORD] == MARKER[2] && mem[(at + 3) % WORD] == MARKER[3];
    }

    /** `@existing`: an N: entry is ours or foreign. */
    method Existing(w: Wrapper, x: nat)
      requires Shape() && x < HATABS_BYTES && r_old_memlo == MemWord(mem[..], MEMLO)
      modifies `r_outcome, `r_end, p`r_start
      ensures var s := Owner(mem[..], w, x);
              && (s.Own? ==> r_outcome == OUT_OWN && p.r_start == s.base && r_end == (s.base + w.alloc) % WORD)
              && (s.Foreign? ==> r_outcome == OUT_FOREIGN)
    {
      var table := U16(mem[HATABS + x + 1], mem[HATABS + x + 2]);
      if table < w.table || table - w.table >= r_old_memlo {
        r_outcome := OUT_FOREIGN;
        return;
      }
      var existing_base := table - w.table;
      var marked := CheckMarker(existing_base + w.marker);
      if !marked {
        r_outcome := OUT_FOREIGN;
        return;
      }
      r_outcome := OUT_OWN;
      p.r_start := existing_base;
      r_end := (existing_base + w.alloc) % WORD;
    }

    /** `scan_hatabs`: decided before any destination byte is touched. */
    method ScanHatabs(w: Wrapper) returns (proceed: bool)
      requires Shape() && r_old_memlo == MemWord(mem[..], MEMLO)
      modifies `r_outcome, `r_end, `hat_slot, p`r_start
      ensures var s := ScanFrom(mem[..], w, 0);
              && (proceed <==> s.Empty?)
              && (s.Empty? ==> hat_slot == s.x)
              && (s.Own? ==> r_outcome == OUT_OWN && p.r_start == s.base && r_end == (s.base + w.alloc) % WORD)
              && (s.Foreign? ==> r_outcome == OUT_FOREIGN)
              && (s.NoSlot? ==> r_outcome == OUT_NO_SLOT)
    {
      var x := 0;
      while x < HATABS_BYTES
        invariant ScanFrom(mem[..], w, 0) == ScanFrom(mem[..], w, x)
        decreases HATABS_BYTES - x
      {
        if mem[HATABS + x] == 0 {
          hat_slot := x;
          return true;
        }
        if mem[HATABS + x] == DEVICE_N {
          Existing(w, x);
          return false;
        }
        x := x + 3;
      }
      r_outcome := OUT_NO_SLOT;
      return false;
    }

    lemma OddWord(lo: byte, hi: byte)
      ensures U16(lo, hi) % 2 == lo % 2 && U16(lo, hi) < WORD
    {
      assert U16(lo, hi) == lo + 2 * (128 * hi);
    }

    /** `calculate_ranges`. */
    method CalculateRanges(w: Wrapper) returns (ok: bool)
      requires Shape()
      requires r_stack_floor == StackFloor(MemWord(mem[..], MEMTOP))
      requires r_sdlstl == MemWord(mem[..], SDLSTL) && r_savmsc == MemWord(mem[..], SAVMSC)
      modifies `base_ptr, `target_end, `r_end, p`r_start
      ensures var r := RangeIn(mem[..], w.alloc);
              && (ok <==> r.Range?)
              && (ok ==> base_ptr == p.r_start == r.start && target_end == r_end == r.end)
    {
      hide U16, StackFloor;
      OddWord(mem[MEMLO], mem[MEMLO + 1]);
      base_ptr := U16(mem[MEMLO], mem[MEMLO + 1]);
      if mem[MEMLO] % 2 == 1 {
        base_ptr := if base_ptr == WORD - 1 then 0 else base_ptr + 1;
      }
      p.r_start := base_ptr;
      target_end := base_ptr + w.alloc;
      if target_end >= WORD {
        return false;
      }
      r_end := target_end;
      ok := target_end <= LOADER_START && target_end < r_stack_floor && target_end < r_sdlstl && target_end < r_savmsc;
    }

    // --------------------------------------------------------- start and publish

    /** The allocation with its marker and table inside it. */
    ghost predicate Placed(w: Wrapper)
      reads p`r_start, `r_end
    {
      Shape() && OffsetsInside(w) && p.r_start + w.alloc == r_end <= LOADER_START && 0x0700 <= p.r_start
    }

    /** The entry point runs: it may use its allocation except marker and table,
        and the bank, where the installer's own pointers live. */
    method CallEntry(w: Wrapper) returns (status: byte)
      requires Placed(w)
      modifies mem, p.bank, `base_ptr, `target_end, `table_ptr, `entry
      ensures entry == Returned(status)
      ensures forall a :: 0 <= a < MEMORY && !(p.r_start <= a < r_end) ==> mem[a] == old(mem[a])
      ensures forall a :: p.r_start + w.marker <= a < p.r_start + w.marker + 4 ==> mem[a] == old(mem[a])
      ensures forall a :: p.r_start + w.table <= a < p.r_start + w.table + 16 ==> mem[a] == old(mem[a])
    {
      var m, t := p.r_start + w.marker, p.r_start + w.table;
      var a := p.r_start;
      while a < r_end
        invariant p.r_start <= a <= r_end
        invariant forall i :: 0 <= i < MEMORY && (!(p.r_start <= i < r_end) || m <= i < m + 4 || t <= i < t + 16) ==>
                    mem[i] == old(mem[i])
        modifies mem
      {
        if !(m <= a < m + 4) && !(t <= a < t + 16) {
          mem[a] := *;
        }
        a := a + 1;
      }
      Scribble(p.bank, 0, 26);
      base_ptr, target_end, table_ptr := *, *, *;
      status := *;
      entry := Returned(status);
    }

    /** `prepare_and_init`: the copied marker, then the entry point. */
    method PrepareAndInit(w: Wrapper) returns (ok: bool)
      requires Placed(w) && base_ptr == p.r_start && entry.NotCalled?
      modifies mem, p.bank, `base_ptr, `target_end, `table_ptr, `init_status, `entry
      ensures ok <==> entry == Returned(0)
      ensures entry.Returned? <==> HasMarker(old(mem[..]), p.r_start + w.marker)
      ensures forall a :: 0 <= a < MEMORY && !(p.r_start <= a < r_end) ==> mem[a] == old(mem[a])
      ensures ok ==> HasMarker(mem[..], p.r_start + w.marker)
      ensures forall a :: p.r_start + w.table <= a < p.r_start + w.table + 16 ==> mem[a] == old(mem[a])
    {
      var marked := CheckMarker(base_ptr + w.marker);
      if !marked {
        return false;
      }
      ghost var m := mem[..];
      init_status := CallEntry(w);
      forall i | 0 <= i < 4 ensures mem[..][(p.r_start + w.marker + i) % WORD] == MARKER[i] {
        assert m[(p.r_start + w.marker + i) % WORD] == MARKER[i];
      }
      ok := init_status == 0;
    }

    /** `validate_table_vectors`. */
    method ValidateTableVectors() returns (ok: bool)
      requires Shape() && table_ptr + 12 <= MEMORY
      ensures ok <==> VectorsInside(mem[..], table_ptr, base_ptr, r_end)
    {
      var y := 0;
      while y != 6
        invariant 0 <= y <= 6
        invariant forall k :: 0 <= k < y ==> base_ptr <= (MemWord(mem[..], table_ptr + 2 * k) + 1) % WORD < r_end
        decreases 6 - y
      {
        var target_ptr := (U16(mem[table_ptr + 2 * y], mem[table_ptr + 2 * y + 1]) + 1) % WORD;
        if target_ptr < base_ptr || target_ptr >= r_end {
          assert MemWord(mem[..], table_ptr + 2 * y) == U16(mem[table_ptr + 2 * y], mem[table_ptr + 2 * y + 1]);
          return false;
        }
        y := y + 1;
      }
      ok := true;
    }

    /** `publish_hatabs`: every pointer is reloaded, as the entry point had the
        bank; the vectors are checked; HATABS and MEMLO change last. */
    method PublishHatabs(w: Wrapper)
      requires Placed(w) && hat_slot < HATABS_BYTES
      modifies mem, `base_ptr, `target_end, `table_ptr, `r_outcome
      ensures var t := p.r_start + w.table;
              if VectorsInside(old(mem[..]), t, p.r_start, r_end) then
                && r_outcome == OUT_INSTALLED
                && mem[HATABS + hat_slot] == DEVICE_N && MemWord(mem[..], HATABS + hat_slot + 1) == t
                && MemWord(mem[..], MEMLO) == r_end
                && forall a :: 0 <= a < MEMORY && !Writable(a, hat_slot, 0, 0) ==> mem[a] == old(mem[a])
              else r_outcome == OUT_FORMAT && forall a :: 0 <= a < MEMORY ==> mem[a] == old(mem[a])
    {
      base_ptr := p.r_start;
      target_end := r_end;
      table_ptr := base_ptr + w.table;
      var ok := ValidateTableVectors();
      if !ok {
        r_outcome := OUT_FORMAT;
        return;
      }
      mem[HATABS + hat_slot + 1] := Lo(table_ptr);
      mem[HATABS + hat_slot + 2] := Hi(table_ptr);
      mem[HATABS + hat_slot] := DEVICE_N;
      mem[MEMLO] := Lo(target_end);
      mem[MEMLO + 1] := Hi(target_end);
      WordBytes(table_ptr);
      WordBytes(target_end);
      r_outcome := OUT_INSTALLED;
    }

    lemma WordBytes(n: nat)
      requires n < WORD
      ensures U16(Lo(n), Hi(n)) == n
    {
    }

    // ------------------------------------------------------------------- install

    /** `prepare_and_init` and `publish_hatabs` on the loaded image. */
    method StartAndPublish(w: Wrapper)
      requires Placed(w) && base_ptr == p.r_start && hat_slot < HATABS_BYTES && entry.NotCalled?
      modifies mem, p.bank, `base_ptr, `target_end, `table_ptr, `init_status, `r_outcome, `entry
      ensures r_outcome == OUT_INSTALLED || r_outcome == OUT_FORMAT || r_outcome == OUT_INIT_FAILED
      ensures r_outcome == OUT_INSTALLED ==> Published(old(mem[..]), mem[..], w, hat_slot, p.r_start, r_end)
      ensures r_outcome != OUT_INSTALLED ==> SameOutside(old(mem[..]), mem[..], p.r_start, r_end)
      ensures r_outcome == OUT_INIT_FAILED <==> entry != Returned(0)
      ensures entry.Returned? <==> HasMarker(old(mem[..]), p.r_start + w.marker)
      ensures r_outcome == OUT_FORMAT ==> !VectorsInside(old(mem[..]), p.r_start + w.table, p.r_start, r_end)
    {
      hide HasMarker, VectorsInside, U16;
      ghost var loaded := mem[..];
      var ok := PrepareAndInit(w);
      if !ok {
        r_outcome := OUT_INIT_FAILED;
        return;
      }
      ghost var started := mem[..];
      SameVectors(loaded, started, p.r_start + w.table, p.r_start, r_end);
      PublishHatabs(w);
      if r_outcome == OUT_INSTALLED {
        SameVectors(started, mem[..], p.r_start + w.table, p.r_start, r_end);
        SameMarker(started, mem[..], p.r_start + w.marker);
      }
    }

    lemma SameVectors(m: seq<byte>, n: seq<byte>, table: nat, start: nat, end: nat)
      requires Bytes64K(m) && Bytes64K(n) && table + 12 <= MEMORY
      requires forall a :: table <= a < table + 12 ==> m[a] == n[a]
      ensures VectorsInside(m, table, start, end) == VectorsInside(n, table, start, end)
    {
      assert forall k :: 0 <= k < 6 ==> MemWord(m, table + 2 * k) == MemWord(n, table + 2 * k);
    }

    lemma SameMarker(m: seq<byte>, n: seq<byte>, at: nat)
      requires Bytes64K(m) && Bytes64K(n) && at + 4 <= MEMORY
      requires forall a :: at <= a < at + 4 ==> m[a] == n[a]
      ensures HasMarker(m, at) == HasMarker(n, at)
    {
      forall i | 0 <= i < 4 ensures m[(at + i) % WORD] == MARKER[i] <==> n[(at + i) % WORD] == MARKER[i] {
        assert (at + i) % WORD == at + i;
      }
    }

    /** Everything but the bank and the borrowed IOCB is as it was. */
    lemma StillBorrowing(bank0: seq<byte>, iocbs0: seq<byte>, iocbs1: seq<byte>)
      requires Shape() && |iocbs0| == 128 == |iocbs1| && zp_save[..] == bank0 && p.disk_iocb <= 112
      requires iocb_save[..] == iocbs0[p.disk_iocb..p.disk_iocb + 16]
      requires forall i :: 0 <= i < 128 && !(p.disk_iocb <= i < p.disk_iocb + 16) ==>
                 iocbs1[i] == iocbs0[i] && p.iocbs[i] == iocbs1[i]
      ensures Borrowing(bank0, iocbs0)
    {
    }

    /** From `load_module` to `publish_hatabs`, ownership and range settled. */
    method LoadAndPublish(w: Wrapper, ghost bank0: seq<byte>, ghost iocbs0: seq<byte>) returns (ghost loaded: seq<byte>)
      requires Borrowing(bank0, iocbs0) && p.Shape() && p.Staged() && Placed(w) && w == WrapperOf(p.stage[..])
      requires SumsFit(SizesOf(p.Header())) && base_ptr == p.r_start && hat_slot < HATABS_BYTES && p.disk_iocb <= 112
      requires entry.NotCalled?
      modifies mem, p.bank, p.iocbs, p.buffer, p.disk, p`src_ptr, p`disk_index, p`disk_count, p`text_size, p`data_size,
               p`bss_size, p`dest_ptr, p`byte_count, p`reloc_ptr, p`segment_size, p`reloc_offset,
               `base_ptr, `target_end, `table_ptr, `init_status, `r_outcome, `entry
      ensures Borrowing(bank0, iocbs0) && Bytes64K(loaded)
      ensures r_outcome == OUT_INSTALLED || r_outcome == OUT_FORMAT || r_outcome == OUT_INIT_FAILED
      ensures SameOutside(old(mem[..]), loaded, p.r_start - 1, r_end)
      ensures r_outcome != OUT_INSTALLED ==> SameOutside(old(mem[..]), mem[..], p.r_start - 1, r_end)
      ensures r_outcome == OUT_INSTALLED ==>
                && LoadsTo(old(mem[..]), p.Header(), w.alloc, p.Field(20), p.Body(), p.r_start, loaded)
                && p.src_ptr == p.module_end
                && Published(loaded, mem[..], w, hat_slot, p.r_start, r_end)
      ensures r_outcome == OUT_INSTALLED ==> entry == Returned(0)
      ensures r_outcome == OUT_INIT_FAILED ==> entry != Returned(0)
      ensures r_outcome == OUT_INIT_FAILED || entry.Returned? ==>
                (entry.Returned? <==> HasMarker(loaded, p.r_start + w.marker))
      ensures r_outcome == OUT_FORMAT && p.Complete() && !p.disk.failed ==>
                || CannotLoad(old(mem[..]), p.Header(), w.alloc, p.Field(20), p.Body(), p.r_start)
                || !VectorsInside(loaded, p.r_start + w.table, p.r_start, r_end)
    {
      hide LoadsTo, CannotLoad, Published, HasMarker, VectorsInside, U16, L.Parser.Staged, L.Parser.Body,
           L.Parser.Complete;
      ghost var before, iocbs1 := mem[..], p.iocbs[..];
      var ok := p.LoadModule();
      loaded := mem[..];
      StillBorrowing(bank0, iocbs0, iocbs1);
      if !ok {
        r_outcome := OUT_FORMAT;
        return;
      }
      StartAndPublish(w);
    }

    /** The bounds recorded at the start are those of memory. */
    predicate Measured()
      reads `r_old_memlo, `r_stack_floor, `r_sdlstl, `r_savmsc, mem
    {
      && Shape() && r_old_memlo == MemWord(mem[..], MEMLO) && r_stack_floor == StackFloor(MemWord(mem[..], MEMTOP))
      && r_sdlstl == MemWord(mem[..], SDLSTL) && r_savmsc == MemWord(mem[..], SAVMSC)
    }

    /** The wrapper staged is the file's, and fit for the loader. */
    ghost predicate Validated(w: Wrapper)
      reads p`module_end, p`disk_index, p`disk_count, p`disk_iocb, p.stage, p.disk
    {
      && p.Staged() && p.disk_iocb <= 112 && w == WrapperOf(p.stage[..]) && WrapperOk(p.stage[..])
      && OffsetsInside(w) && SumsFit(SizesOf(p.Header()))
    }

    /** Why loading or starting failed, once a range was found. */
    ghost predicate LoadTrouble(before: seq<byte>, loaded: seq<byte>, w: Wrapper, start: nat, end: nat)
      requires Bytes64K(before) && Bytes64K(loaded)
      reads p`module_end, p.stage, p.disk
    {
      Shape() && (!p.Complete() || p.disk.failed
      || CannotLoad(before, p.Header(), w.alloc, p.Field(20), p.Body(), start)
      || (w.table + 16 <= w.alloc && end == start + w.alloc <= LOADER_START
          && !VectorsInside(loaded, start + w.table, start, end)))
    }

    /** How a run ends once the header is staged: each outcome with its cause,
        and what it leaves of memory. */
    ghost predicate Resolved(m0: seq<byte>, loaded: seq<byte>, m: seq<byte>, w: Wrapper)
      requires Bytes64K(m0) && Bytes64K(loaded) && Bytes64K(m)
      reads p`module_end, p`src_ptr, p`r_start, p.stage, p.disk, `r_outcome, `r_end, `entry
    {
      var s, r := ScanFrom(m0, w, 0), RangeIn(m0, w.alloc);
      if !s.Empty? || r.NoRange? then
        && m == m0 && entry.NotCalled?
        && if s.Own? then r_outcome == OUT_OWN && p.r_start == s.base && r_end == (s.base + w.alloc) % WORD
           else r_outcome == (if s.Foreign? then OUT_FOREIGN else if s.NoSlot? then OUT_NO_SLOT else OUT_MEMORY)
      else if r_outcome == OUT_INSTALLED then
        && Installed(m0, loaded, m, w) && entry == Returned(0)
        && p.r_start == r.start && r_end == r.end && p.src_ptr == p.module_end
        && Shape() && LoadsTo(m0, p.Header(), w.alloc, p.Field(20), p.Body(), r.start, loaded)
      else
        && r.start > 0 && SameOutside(m0, m, r.start - 1, r.end)
        && (r_outcome == OUT_FORMAT || r_outcome == OUT_INIT_FAILED)
        && (r_outcome == OUT_FORMAT ==> LoadTrouble(m0, loaded, w, r.start, r.end))
        && (r_outcome == OUT_INIT_FAILED ==>
              if HasMarker(loaded, r.start + w.marker) then entry.Returned? && entry.status != 0 else entry.NotCalled?)
    }

    /** From `scan_hatabs` to the last outcome. */
    method Resolve(w: Wrapper, ghost bank0: seq<byte>, ghost iocbs0: seq<byte>) returns (ghost loaded: seq<byte>)
      requires Borrowing(bank0, iocbs0) && Measured() && Validated(w) && entry.NotCalled?
      requires 0x0700 <= MemWord(mem[..], MEMLO) < 0xffff
      modifies mem, p.bank, p.iocbs, p.buffer, p.disk, p`src_ptr, p`disk_index, p`disk_count, p`text_size, p`data_size,
               p`bss_size, p`dest_ptr, p`byte_count, p`reloc_ptr, p`segment_size, p`reloc_offset, p`r_start,
               `base_ptr, `target_end, `table_ptr, `hat_slot, `init_status, `r_outcome, `r_end, `entry
      ensures Borrowing(bank0, iocbs0) && Bytes64K(loaded)
      ensures Resolved(old(mem[..]), loaded, mem[..], w)
      ensures Reported(old(mem[..]), w, r_outcome, p.r_start, r_end)
    {
      hide LoadsTo, CannotLoad, Published, HasMarker, VectorsInside, U16, L.Parser.Staged, L.Parser.Body,
           L.Parser.Complete, SumsFit, WrapperOk, Borrowing, StackFloor, Reported;
      ghost var m0 := mem[..];
      loaded := m0;
      EmptySlotIsInTable(m0, w, 0);
      var proceed := ScanHatabs(w);
      assert mem[..] == m0;
      if !proceed {
        ReportedAsScanned(m0, w, r_outcome, p.r_start, r_end);
        return;
      }
      var ok := CalculateRanges(w);
      if !ok {
        r_outcome := OUT_MEMORY;
        ReportedAsScanned(m0, w, r_outcome, p.r_start, r_end);
        return;
      }
      RangeStart(m0, w.alloc);
      loaded := LoadAndPublish(w, bank0, iocbs0);
      ReportedAsScanned(m0, w, r_outcome, p.r_start, r_end);
    }

    /** What the payload must satisfy: the build gate keeps both. */
    static predicate PayloadFits(file: seq<byte>) {
      |file| >= STAGED ==> SumsFit(SizesOf(file[WRAPPER..STAGED])) && OffsetsInside(WrapperOf(file[..STAGED]))
    }

    /** The start of `_main`: the caller's bank, the live bounds, the header. */
    method Begin() returns (ok: bool)
      requires Shape()
      modifies zp_save, iocb_save, p.bank, p.iocbs, p.stage, p.disk, p`disk_iocb, p`disk_index, p`disk_count,
               p`module_end, p`src_ptr,
               `r_outcome, `r_old_memlo, `r_stack_floor, `r_sdlstl, `r_savmsc
      ensures Borrowing(old(p.bank[..]), old(p.iocbs[..])) && Measured()
      ensures ok ==> CanStage(mem[..], old(p.iocbs[..]), p.disk.file) && p.Staged() && p.disk_iocb <= 112
                     && WrapperOk(p.stage[..])
      ensures !ok ==> !CanStage(mem[..], old(p.iocbs[..]), p.disk.file) || p.disk.failed
      ensures ok ==> p.disk.failed == old(p.disk.failed)
    {
      hide WrapperOk, WrapperOf, StackFloor, U16, ScratchBelow;
      ghost var bank0, iocbs0 := p.bank[..], p.iocbs[..];
      p.disk_iocb := NO_IOCB;
      SaveCallerZp();
      Scribble(p.bank, 0, 26);
      InitResult();
      ok := DiskOpenHeader(bank0, iocbs0);
      if !ok {
        return;
      }
      ok := ValidateWrapper();
      assert p.stage[..] == p.disk.file[..STAGED];
    }

    lemma StagedHeader()
      requires p.Staged() && PayloadFits(p.disk.file)
      ensures STAGED <= |p.disk.file| && p.stage[..] == p.disk.file[..STAGED] && SumsFit(SizesOf(p.Header()))
              && OffsetsInside(WrapperOf(p.stage[..]))
    {
      assert p.Header() == p.stage[..][WRAPPER..STAGED] == p.disk.file[WRAPPER..STAGED];
    }

    lemma WhenResolved(m0: seq<byte>, loaded: seq<byte>)
      requires Shape() && STAGED <= |p.disk.file| && p.stage[..] == p.disk.file[..STAGED]
      requires WrapperOk(p.stage[..]) && Bytes64K(m0) && Bytes64K(loaded)
      requires Resolved(m0, loaded, mem[..], WrapperOf(p.stage[..]))
      ensures r_outcome != OUT_INSTALLED ==> Untouched(m0, mem[..], Target(m0, p.disk.file))
      ensures r_outcome == OUT_INSTALLED ==> entry == Returned(0)
      ensures r_outcome == OUT_INIT_FAILED ==> entry != Returned(0)
    {
      hide WrapperOk, WrapperOf, StackFloor, U16, Owner, ScanFrom, Ranges, LoadTrouble, Installed, LoadsTo,
           HasMarker;
    }

    lemma NothingTouched(m0: seq<byte>)
      requires Bytes64K(m0) && 0x0700 <= MemWord(m0, MEMLO) < 0xffff
      ensures Untouched(m0, m0, Target(m0, p.disk.file))
    {
      hide WrapperOk, WrapperOf, StackFloor, U16, Owner, ScanFrom, Ranges;
      if Target(m0, p.disk.file).Range? {
        RangeStart(m0, WrapperOf(p.disk.file[..STAGED]).alloc);
      }
    }

    /** `_main`. */
    method Install() returns (ghost loaded: seq<byte>)
      requires Shape() && PayloadFits(p.disk.file)
      requires 0x0700 <= MemWord(mem[..], MEMLO) < 0xffff
      modifies mem, zp_save, iocb_save, p.bank, p.iocbs, p.stage, p.buffer, p.disk, p`disk_iocb, p`disk_index,
               p`disk_count,
               p`module_end, p`src_ptr, p`text_size, p`data_size, p`bss_size, p`dest_ptr, p`byte_count, p`reloc_ptr,
               p`segment_size, p`reloc_offset, p`r_start, `r_old_memlo, `r_stack_floor, `r_sdlstl, `r_savmsc,
               `base_ptr, `target_end, `table_ptr, `hat_slot, `init_status, `r_outcome, `r_end, `entry
      // Whatever happens, the caller gets back what was borrowed.
      ensures p.bank[..] == old(p.bank[..]) && p.iocbs[..] == old(p.iocbs[..])
      ensures Bytes64K(loaded)
      ensures r_outcome != OUT_INSTALLED ==> Untouched(old(mem[..]), mem[..], Target(old(mem[..]), p.disk.file))
      ensures !CanStage(old(mem[..]), old(p.iocbs[..]), p.disk.file) ==>
                r_outcome == OUT_FORMAT && mem[..] == old(mem[..]) && entry.NotCalled?
      // Ours, foreign, full or no room: each exactly when memory says so.
      ensures || (r_outcome == 6 && (p.disk.failed || !CanStage(old(mem[..]), old(p.iocbs[..]), p.disk.file)))
              || (|p.disk.file| >= STAGED
                  && Reported(old(mem[..]), WrapperOf(p.disk.file[..STAGED]), r_outcome, p.r_start, r_end))
      // The entry point ran, and returned zero, whenever the outcome is installed.
      ensures r_outcome == 0 ==> entry == Returned(0)
      ensures r_outcome == 2 ==> entry != Returned(0)
      ensures CanStage(old(mem[..]), old(p.iocbs[..]), p.disk.file) ==>
                || (r_outcome == OUT_FORMAT && p.disk.failed && mem[..] == old(mem[..]) && entry.NotCalled?)
                || Resolved(old(mem[..]), loaded, mem[..], WrapperOf(p.disk.file[..STAGED]))
    {
      hide WrapperOk, WrapperOf, StackFloor, U16, Borrowing, Resolved, SumsFit, L.Parser.Staged, CanStage, Owner,
           ScanFrom, Ranges, Untouched;
      ghost var bank0, iocbs0, m0 := p.bank[..], p.iocbs[..], mem[..];
      loaded := m0;
      entry := NotCalled;
      var ok := Begin();
      assert mem[..] == m0;
      if !ok {
        r_outcome := OUT_FORMAT;
        NothingTouched(m0);
      } else {
        StagedHeader();
        loaded := Resolve(WrapperOf(p.stage[..]), bank0, iocbs0);
        WhenResolved(m0, loaded);
      }
      Finish(bank0, iocbs0);
    }

    /** A run after a successful one finds the first one's marker, reports its
        range, and changes nothing; short of disk trouble it cannot fail. */
    method InstallAgain(ghost before: seq<byte>, ghost loaded: seq<byte>)
      requires Shape() && PayloadFits(p.disk.file) && Bytes64K(before) && Bytes64K(loaded)
      requires 0x0700 <= MemWord(before, MEMLO) < 0xffff && CanStage(before, p.iocbs[..], p.disk.file)
      requires Installed(before, loaded, mem[..], WrapperOf(p.disk.file[..STAGED]))
      modifies mem, zp_save, iocb_save, p.bank, p.iocbs, p.stage, p.buffer, p.disk, p`disk_iocb, p`disk_index,
               p`disk_count,
               p`module_end, p`src_ptr, p`text_size, p`data_size, p`bss_size, p`dest_ptr, p`byte_count, p`reloc_ptr,
               p`segment_size, p`reloc_offset, p`r_start, `r_old_memlo, `r_stack_floor, `r_sdlstl, `r_savmsc,
               `base_ptr, `target_end, `table_ptr, `hat_slot, `init_status, `r_outcome, `r_end, `entry
      ensures mem[..] == old(mem[..])
      ensures p.bank[..] == old(p.bank[..]) && p.iocbs[..] == old(p.iocbs[..])
      ensures !p.disk.failed ==> r_outcome == OUT_OWN
      ensures r_outcome == OUT_OWN ==>
                var r := RangeIn(before, WrapperOf(p.disk.file[..STAGED]).alloc);
                r.Range? && p.r_start == r.start && r_end == r.end
      ensures r_outcome == OUT_OWN || (r_outcome == OUT_FORMAT && p.disk.failed)
    {
      hide ScratchBelow, WrapperOk, Installed, HasMarker, VectorsInside, U16, Untouched, Owner, StackFloor,
           LoadTrouble, WrapperOf, LoadsTo;
      ghost var after, w := mem[..], WrapperOf(p.disk.file[..STAGED]);
      InstalledKeepsBounds(before, loaded, after, w, p.iocbs[..], p.disk.file);
      InstalledIsFound(before, loaded, after, w);
      ghost var loaded2 := Install();
    }
  }
}

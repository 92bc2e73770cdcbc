/** The Atari-side installer: stream, check, copy, relocate, publish. */
module Loader {
  import opened Bytes
  import opened O65
  import opened O65Header
  import opened O65Load
  import opened Disk
  import opened InstallSpec

  const IOCB_SIZE: nat := 16

  /** Everything the parser works on. The zero-page pointers are fields; the 26
      bytes they live in are `bank`, the IOCB area is `iocbs`. */
  class Parser {
    const mem: array<byte>
    const bank: array<byte>
    const iocbs: array<byte>
    const stage: array<byte>
    const buffer: array<byte>
    const disk: Disk

    var src_ptr: nat
    var module_end: nat
    var disk_iocb: nat
    var disk_index: nat
    var disk_count: nat

    var r_start: nat
    var dest_ptr: nat
    var byte_count: nat
    var text_size: nat
    var data_size: nat
    var bss_size: nat
    var reloc_ptr: nat
    var segment_size: nat
    var reloc_offset: nat

    constructor (mem: array<byte>, file: Disk)
      requires mem.Length == MEMORY
      ensures Shape() && this.mem == mem && disk == file
      ensures fresh(bank) && fresh(iocbs) && fresh(stage) && fresh(buffer)
    {
      this.mem, disk := mem, file;
      bank := new byte[26](_ => 0);
      iocbs := new byte[128](_ => 0);
      stage := new byte[48](_ => 0);
      buffer := new byte[128](_ => 0);
      src_ptr, module_end, disk_iocb, disk_index, disk_count := 0, 0, 0, 0, 0;
      r_start, dest_ptr, byte_count, text_size, data_size, bss_size := 0, 0, 0, 0, 0, 0;
      reloc_ptr, segment_size, reloc_offset := 0, 0, 0;
    }

    predicate Shape() {
      && mem.Length == MEMORY && bank.Length == 26 && iocbs.Length == 128 && stage.Length == 48 && buffer.Length == 128
      && mem != bank && mem != iocbs && mem != stage && mem != buffer
      && bank != iocbs && bank != stage && bank != buffer
      && iocbs != stage && iocbs != buffer && stage != buffer
    }

    // -------------------------------------------------------------- streaming

    /** The declared module, as much of it as the file holds. */
    function Module(): seq<byte>
      reads `module_end
    {
      var n := WRAPPER + (if module_end < MODULE_PTR then 0 else module_end - MODULE_PTR);
      if |disk.file| < WRAPPER then [] else if n <= |disk.file| then disk.file[WRAPPER..n] else disk.file[WRAPPER..]
    }

    predicate Complete()
      reads `module_end
    {
      MODULE_PTR <= module_end && WRAPPER + (module_end - MODULE_PTR) <= |disk.file|
    }

    /** The module bytes not yet handed out. */
    function Rest(): seq<byte>
      reads `module_end, `src_ptr
    {
      var k := if src_ptr < MODULE_PTR then 0 else src_ptr - MODULE_PTR;
      if k <= |Module()| then Module()[k..] else []
    }

    /** The buffer holds the next bytes of the file, none past the module. */
    ghost predicate Streaming()
      reads `module_end, `src_ptr, `disk_index, `disk_count, `disk_iocb, buffer, disk
    {
      && Shape() && disk_iocb <= 112
      && MODULE_PTR <= src_ptr < WORD && MODULE_PTR <= module_end < WORD
      && disk_index <= disk_count <= 128
      && disk.pos == WRAPPER + (src_ptr - MODULE_PTR) + (disk_count - disk_index) <= |disk.file|
      && buffer[disk_index..disk_count] == disk.file[disk.pos - (disk_count - disk_index)..disk.pos]
      && (disk_index < disk_count ==> src_ptr + (disk_count - disk_index) <= module_end)
    }

    /** `disk_cio` for a GET: the bank is kept across CIO, the IOCB is not. */
    method GetCharacters(n: nat) returns (ok: bool)
      requires Shape() && n <= 128 && disk_iocb <= 112
      modifies bank, iocbs, buffer, disk
      ensures forall i :: 0 <= i < 26 ==> bank[i] == old(bank[i])
      ensures forall i :: 0 <= i < 128 && !(disk_iocb <= i < disk_iocb + IOCB_SIZE) ==> iocbs[i] == old(iocbs[i])
      ensures ok ==> disk.pos == old(disk.pos) + n <= |disk.file| && buffer[..n] == disk.file[old(disk.pos)..disk.pos]
                     && disk.failed == old(disk.failed)
      ensures !ok ==> disk.pos == old(disk.pos) && (old(disk.pos) + n > |disk.file| || disk.failed)
                      && (disk.failed || !old(disk.failed))
    {
      Scribble(iocbs, disk_iocb, disk_iocb + IOCB_SIZE);
      var disk_zp_save := new byte[26](i requires 0 <= i < 26 reads bank => bank[i]);
      Scribble(bank, 0, 26);
      ok := disk.Get(buffer, n);
      forall i | 0 <= i < 26 { bank[i] := disk_zp_save[i]; }
    }

    /** The refill of `disk_read_byte`: min(128, what is left of the module), so
        that the last transfer cannot need bytes past its end. */
    method Refill() returns (ok: bool)
      requires Streaming() && disk_index == disk_count && src_ptr < module_end
      modifies `disk_index, `disk_count, bank, iocbs, buffer, disk
      ensures Shape() && forall i :: 0 <= i < 26 ==> bank[i] == old(bank[i])
      ensures forall i :: 0 <= i < 128 && !(disk_iocb <= i < disk_iocb + IOCB_SIZE) ==> iocbs[i] == old(iocbs[i])
      ensures ok ==> disk_index == 0 && disk_count == if module_end - src_ptr < 128 then module_end - src_ptr else 128
      ensures ok ==> Streaming() && disk_index < disk_count && disk.failed == old(disk.failed)
                     && disk.pos <= WRAPPER + (module_end - MODULE_PTR)
      ensures !ok ==> disk.pos == old(disk.pos) && (Complete() ==> disk.failed)
      ensures disk.failed || !old(disk.failed)
    {
      disk_count := if module_end - src_ptr < 128 then module_end - src_ptr else 128;
      disk_index := 0;
      ok := GetCharacters(disk_count);
      assert buffer[0..disk_count] == buffer[..disk_count];
    }

    /** The byte handed out is the next of the module. */
    lemma BufferIsNext()
      requires Streaming() && disk_index < disk_count
      ensures Rest() != [] && Rest()[0] == buffer[disk_index]
    {
      var k, m := src_ptr - MODULE_PTR, Module();
      assert buffer[disk_index..disk_count][0] == disk.file[disk.pos - (disk_count - disk_index)];
      assert k < |m| && m[k] == disk.file[WRAPPER + k];
    }

    /** `@get` and the advance of the stream pointer. */
    method Take() returns (b: byte)
      requires Streaming() && disk_index < disk_count
      modifies `src_ptr, `disk_index
      ensures Streaming() && old(Rest()) != [] && b == old(Rest())[0] && Rest() == old(Rest())[1..]
      ensures src_ptr == old(src_ptr) + 1 <= module_end
    {
      BufferIsNext();
      ghost var m, k, n := Module(), src_ptr - MODULE_PTR, disk_count - disk_index;
      b := buffer[disk_index];
      assert buffer[disk_index + 1..disk_count] == buffer[disk_index..disk_count][1..];
      assert disk.file[disk.pos - n..disk.pos][1..] == disk.file[disk.pos - (n - 1)..disk.pos];
      disk_index := disk_index + 1;
      src_ptr := src_ptr + 1;
      assert m[k..][1..] == m[k + 1..];
    }

    /** What CIO traffic leaves alone: the bank, and every IOCB but its own. */
    twostate predicate CioKept()
      requires Shape()
      reads `disk_iocb, bank, iocbs, disk
    {
      && (forall i :: 0 <= i < 26 ==> bank[i] == old(bank[i]))
      && (forall i :: 0 <= i < 128 && !(disk_iocb <= i < disk_iocb + IOCB_SIZE) ==> iocbs[i] == old(iocbs[i]))
      && (disk.failed || !old(disk.failed))
    }

    /** `read_byte` over `disk_read_byte`: bounded by the declared module. */
    method ReadByte() returns (ok: bool, b: byte)
      requires Streaming()
      modifies `src_ptr, `disk_index, `disk_count, bank, iocbs, buffer, disk
      ensures Shape() && CioKept()
      ensures ok ==> Streaming() && old(Rest()) != [] && b == old(Rest())[0] && Rest() == old(Rest())[1..]
                     && src_ptr == old(src_ptr) + 1 <= module_end
      ensures !ok && Complete() ==> old(Rest()) == [] || disk.failed
    {
      b := 0;
      if src_ptr >= module_end {
        return false, b;
      }
      if disk_index == disk_count {
        ok := Refill();
        if !ok {
          return;
        }
      }
      b := Take();
      ok := true;
    }

    /** No refill ever asks for a byte past the declared module. */
    lemma NeverPastTheEnd()
      requires Streaming() && src_ptr <= module_end
      ensures disk.pos <= WRAPPER + (module_end - MODULE_PTR)
    {
    }

    /** The inner loop of `skip_o65_options`. */
    method SkipBytes(n: nat) returns (ok: bool)
      requires Shape() && Streaming() && n > 0
      modifies `src_ptr, `disk_index, `disk_count, bank, iocbs, buffer, disk
      ensures Shape() && CioKept()
      ensures ok ==> Streaming() && n <= |old(Rest())| && Rest() == old(Rest())[n..]
      ensures !ok && Complete() ==> n > |old(Rest())| || disk.failed
    {
      hide Rest, Streaming;
      ghost var r := Rest();
      var option_count := n;
      while true
        invariant 0 < option_count <= n && Streaming() && Shape() && CioKept()
        invariant n - option_count <= |r| && Rest() == r[n - option_count..]
        decreases option_count
      {
        var b;
        ok, b := ReadByte();
        if !ok {
          return;
        }
        option_count := option_count - 1;
        if option_count == 0 {
          return;
        }
      }
    }

    /** `skip_o65_options`. */
    method SkipO65Options() returns (ok: bool)
      requires Shape() && Streaming()
      modifies `src_ptr, `disk_index, `disk_count, bank, iocbs, buffer, disk
      ensures Shape() && CioKept()
      ensures ok ==> Streaming() && SkipOptions(old(Rest())) == Tail(Rest())
      ensures !ok && Complete() ==> SkipOptions(old(Rest())) == NoTail || disk.failed
    {
      hide SkipOptions, Rest, Streaming;
      ghost var r0 := Rest();
      while true
        invariant Shape() && Streaming() && CioKept()
        invariant SkipOptions(r0) == SkipOptions(Rest())
        decreases |Rest()|
      {
        OptionStep(Rest());
        var b;
        ok, b := ReadByte();
        if !ok || b == 0 {
          return;
        }
        if b < 2 {
          return false;
        }
        ok := SkipBytes(b - 1);
        if !ok {
          return;
        }
      }
    }

    // ------------------------------------------------------------ copy, clear

    /** One turn of `@copy`. */
    method CopyByte() returns (ok: bool)
      requires Streaming() && dest_ptr < MEMORY && byte_count > 0
      modifies `src_ptr, `disk_index, `disk_count, `dest_ptr, `byte_count, mem, bank, iocbs, buffer, disk
      ensures Shape() && CioKept()
      ensures ok ==> Streaming() && old(Rest()) != [] && Rest() == old(Rest())[1..]
                     && dest_ptr == old(dest_ptr) + 1 && byte_count == old(byte_count) - 1
                     && mem[old(dest_ptr)] == old(Rest())[0]
      ensures !ok && Complete() ==> old(Rest()) == [] || disk.failed
      ensures forall a :: 0 <= a < MEMORY && a != old(dest_ptr) ==> mem[a] == old(mem[a])
    {
      var b;
      ok, b := ReadByte();
      if ok {
        mem[dest_ptr] := b;
        dest_ptr := dest_ptr + 1;
        byte_count := byte_count - 1;
      }
    }

    /** `@copy`: the initialised bytes. */
    method CopyInit() returns (ok: bool)
      requires Streaming() && dest_ptr + byte_count <= MEMORY
      modifies `src_ptr, `disk_index, `disk_count, `dest_ptr, `byte_count, mem, bank, iocbs, buffer, disk
      ensures Shape() && CioKept()
      ensures ok ==> Streaming() && old(byte_count) <= |old(Rest())| && Rest() == old(Rest())[old(byte_count)..]
                     && dest_ptr == old(dest_ptr) + old(byte_count)
                     && forall a :: old(dest_ptr) <= a < dest_ptr ==> mem[a] == old(Rest())[a - old(dest_ptr)]
      ensures !ok && Complete() ==> old(byte_count) > |old(Rest())| || disk.failed
      ensures forall a :: 0 <= a < MEMORY && !(old(dest_ptr) <= a < old(dest_ptr) + old(byte_count)) ==>
                mem[a] == old(mem[a])
    {
      hide Rest;
      ghost var r, n, at := Rest(), byte_count, dest_ptr;
      while byte_count != 0
        invariant byte_count <= n && Streaming() && CioKept()
        invariant n - byte_count <= |r| && Rest() == r[n - byte_count..] && dest_ptr == at + (n - byte_count)
        invariant forall a :: at <= a < dest_ptr ==> mem[a] == r[a - at]
        invariant forall a :: 0 <= a < MEMORY && !(at <= a < at + n) ==> mem[a] == old(mem[a])
        decreases byte_count
      {
        ok := CopyByte();
        if !ok {
          return;
        }
      }
      ok := true;
    }

    /** `@clear`: the BSS. */
    method ClearBss()
      requires Shape() && dest_ptr + byte_count <= MEMORY
      modifies `dest_ptr, `byte_count, mem
      ensures mem[..] == Place(old(mem[..]), old(dest_ptr), Zeros(old(byte_count)))
    {
      ghost var n, at, m := byte_count, dest_ptr, mem[..];
      while byte_count != 0
        invariant byte_count <= n && dest_ptr == at + (n - byte_count)
        invariant forall a :: 0 <= a < MEMORY ==> mem[a] == if at <= a < dest_ptr then 0 else m[a]
        decreases byte_count
      {
        mem[dest_ptr] := 0;
        dest_ptr := dest_ptr + 1;
        byte_count := byte_count - 1;
      }
    }

    // ------------------------------------------------------------- relocation

    /** `@target`: the address of the site, modulo 2^16. */
    function Target(): nat
      reads `reloc_ptr, `reloc_offset
    {
      (reloc_ptr + reloc_offset) % WORD
    }

    /** `@low`, `@high` and `@word` once the site is known to be in bounds: ADC
        byte by byte into memory. */
    method ApplySite(s: Site)
      requires Shape() && s.offset == reloc_offset
      modifies mem
      ensures mem[..] == Patch(old(mem[..]), s, reloc_ptr, r_start)
    {
      hide Plus, Carries, Lo, Hi;
      var base := if s.seg == ZERO_PAGE then ZP_BASE else r_start;
      var target_ptr := Target();
      match s.kind
      case Low =>
        mem[target_ptr] := Plus(mem[target_ptr], Lo(base), false);
      case High(low) =>
        var high_addend := Plus(Hi(base), 0, Carries(low, Lo(base), false));
        mem[target_ptr] := Plus(mem[target_ptr], high_addend, false);
      case Word =>
        var carry := Carries(mem[target_ptr], Lo(base), false);
        mem[target_ptr] := Plus(mem[target_ptr], Lo(base), false);
        var next := (target_ptr + 1) % WORD;
        mem[next] := Plus(mem[next], Hi(base), carry);
    }

    /** A record after its delta: descriptor, bounds test, HIGH's low byte. */
    method ReadSite() returns (ok: bool, s: Site)
      requires Streaming() && reloc_offset < WORD
      modifies `src_ptr, `disk_index, `disk_count, bank, iocbs, buffer, disk
      ensures Shape() && CioKept()
      ensures ok ==> Streaming() && Checked(s, segment_size) && s.offset == reloc_offset && |Rest()| < |old(Rest())|
                     && ParseRecord(old(Rest()), reloc_offset, segment_size)
                        == Prepend([s], ParseTable(Rest(), reloc_offset, segment_size))
      ensures !ok && Complete() ==> ParseRecord(old(Rest()), reloc_offset, segment_size) == BadTable || disk.failed
    {
      hide ParseTable;
      s := Site(reloc_offset, Low, TEXT);
      ghost var r := Rest();
      var reloc_descriptor;
      ok, reloc_descriptor := ReadByte();
      if !ok {
        return;
      }
      s := s.(seg := reloc_descriptor % 8);
      if !KnownSegment(s.seg) {
        return false, s;
      }
      if reloc_descriptor / 32 == 4 {
        s := s.(kind := Word);
        ok := WordInSegment(reloc_offset, segment_size);
      } else if reloc_descriptor / 32 == 2 {
        if !InSegment(reloc_offset, segment_size) {
          return false, s;
        }
        var low;
        ok, low := ReadByte();
        s := s.(kind := High(low));
        assert ok ==> r[1..][1..] == r[2..];
      } else if reloc_descriptor / 32 == 1 {
        ok := InSegment(reloc_offset, segment_size);
      } else {
        ok := false;
      }
    }

    /** `relocate_segment`: one table, each record applied as it is read. */
    method RelocateSegment() returns (ok: bool)
      requires Shape() && Streaming() && 0 < reloc_ptr && reloc_ptr + segment_size <= MEMORY && segment_size < WORD
      modifies `src_ptr, `disk_index, `disk_count, `reloc_offset, mem, bank, iocbs, buffer, disk
      ensures Shape() && CioKept()
      ensures ok ==> Streaming() &&
                     var t := ParseTable(old(Rest()), NO_OFFSET, segment_size);
                     t.Table? && t.rest == Rest() && mem[..] == PatchAll(old(mem[..]), t.sites, reloc_ptr, r_start)
      ensures !ok && Complete() ==> ParseTable(old(Rest()), NO_OFFSET, segment_size) == BadTable || disk.failed
      ensures forall a :: 0 <= a < MEMORY && !(reloc_ptr - 1 <= a < reloc_ptr + segment_size) ==> mem[a] == old(mem[a])
    {
      hide PatchAll, Patch, ParseTable, ParseRecord, Rest, Streaming;
      ghost var b0, m0, done := Rest(), mem[..], [];
      NothingDone(b0, m0, segment_size, reloc_ptr, r_start);
      reloc_offset := NO_OFFSET;
      while true
        invariant Streaming() && CioKept() && reloc_offset < WORD
        invariant ParseTable(b0, NO_OFFSET, segment_size)
                    == Prepend(done, ParseTable(Rest(), reloc_offset, segment_size))
        invariant mem[..] == PatchAll(m0, done, reloc_ptr, r_start)
        invariant forall a :: 0 <= a < MEMORY && !(reloc_ptr - 1 <= a < reloc_ptr + segment_size) ==> mem[a] == m0[a]
        decreases |Rest()|
      {
        var b;
        ghost var r, off := Rest(), reloc_offset;
        ok, b := ReadByte();
        if !ok {
          EmptyIsBad(off, segment_size);
          return;
        }
        if b == 0 {
          TableEnds(r, done, off, segment_size);
          return;
        }
        if b == 0xff {
          ChainStep(r, off, segment_size);
          reloc_offset := (reloc_offset + 0xfe) % WORD;
        } else {
          DeltaStep(r, off, segment_size);
          reloc_offset := (reloc_offset + b) % WORD;
          var s;
          ok, s := ReadSite();
          if !ok {
            return;
          }
          PatchStays(mem[..], s, reloc_ptr, segment_size, r_start);
          ApplySite(s);
          PatchedOneMore(m0, done, s, reloc_ptr, r_start);
          OneMoreSite(done, s, ParseTable(Rest(), reloc_offset, segment_size));
          done := done + [s];
        }
      }
    }

    // ------------------------------------------------------------ load_module

    /** Two zero bytes: no imports, or no exports. */
    method ReadTwoZeros() returns (ok: bool)
      requires Streaming()
      modifies `src_ptr, `disk_index, `disk_count, bank, iocbs, buffer, disk
      ensures Shape() && CioKept()
      ensures ok ==> Streaming() && |old(Rest())| >= 2 && old(Rest())[0] == 0 && old(Rest())[1] == 0
                     && Rest() == old(Rest())[2..]
                     && src_ptr <= module_end
      ensures !ok && Complete() ==> |old(Rest())| < 2 || old(Rest())[0] != 0 || old(Rest())[1] != 0 || disk.failed
    {
      ghost var r := Rest();
      var b;
      ok, b := ReadByte();
      if !ok || b != 0 {
        return false;
      }
      ok, b := ReadByte();
      assert ok ==> r[1..][1..] == r[2..];
      ok := ok && b == 0;
    }

    /** The stream is used up exactly when the pointer meets the end. */
    lemma AtTheEnd()
      requires Streaming() && src_ptr <= module_end
      ensures src_ptr == module_end ==> Rest() == []
      ensures Complete() && Rest() == [] ==> src_ptr == module_end
    {
    }

    /** No exports, and not a byte more or less than declared. */
    method ReadEnd() returns (ok: bool)
      requires Streaming()
      modifies `src_ptr, `disk_index, `disk_count, bank, iocbs, buffer, disk
      ensures Shape() && CioKept()
      ensures ok ==> Streaming() && old(Rest()) == [0, 0] && src_ptr == module_end
      ensures !ok && Complete() ==> old(Rest()) != [0, 0] || disk.failed
    {
      ghost var d := Rest();
      ok := ReadTwoZeros();
      if ok {
        AtTheEnd();
        assert d == [0, 0] + d[2..];
        ok := src_ptr == module_end;
      }
    }

    /** The table of DATA, behind that of TEXT, then exports and the exact end. */
    method LoadDataTable() returns (ok: bool)
      requires Shape() && Streaming() && 0 < reloc_ptr && reloc_ptr + text_size + data_size <= MEMORY
      requires data_size < WORD
      modifies `src_ptr, `disk_index, `disk_count, `reloc_ptr, `segment_size, `reloc_offset, mem, bank, iocbs, buffer,
               disk
      ensures Shape() && CioKept()
      ensures var t := ParseTable(old(Rest()), NO_OFFSET, data_size);
              && (ok ==> t.Table? && t.rest == [0, 0] && src_ptr == module_end && Streaming()
                         && mem[..] == PatchAll(old(mem[..]), t.sites, old(reloc_ptr) + text_size, r_start))
              && (!ok && Complete() ==> t.BadTable? || t.rest != [0, 0] || disk.failed)
      ensures var at := old(reloc_ptr) + text_size;
              forall a :: 0 <= a < MEMORY && !(at - 1 <= a < at + data_size) ==> mem[a] == old(mem[a])
    {
      hide PatchAll, ParseTable, Rest, Streaming;
      reloc_ptr := reloc_ptr + text_size;
      segment_size := data_size;
      ok := RelocateSegment();
      if ok {
        ok := ReadEnd();
      }
    }

    /** `load_module` from `@imports` on: tables, exports, and the exact end. */
    method LoadTables() returns (ok: bool)
      requires Shape() && Streaming() && 0 < r_start && r_start + text_size + data_size <= MEMORY
      requires text_size < WORD && data_size < WORD
      modifies `src_ptr, `disk_index, `disk_count, `reloc_ptr, `segment_size, `reloc_offset, mem, bank, iocbs, buffer,
               disk
      ensures Shape() && CioKept()
      ensures var t := ParseTables(old(Rest()), Sizes(text_size, data_size, bss_size));
              && (ok ==> t.Tables? && src_ptr == module_end && Streaming()
                         && mem[..] == PatchAll(PatchAll(old(mem[..]), t.text, r_start, r_start), t.data,
                                                r_start + text_size, r_start))
              && (!ok && Complete() ==> t.NoTables? || disk.failed)
      ensures forall a :: 0 <= a < MEMORY && !(r_start - 1 <= a < r_start + text_size + data_size) ==>
                mem[a] == old(mem[a])
    {
      hide PatchAll, ParseTable, Rest, Streaming;
      ghost var b := Rest();
      ok := ReadTwoZeros();
      if !ok {
        return;
      }
      reloc_ptr := r_start;
      segment_size := text_size;
      ok := RelocateSegment();
      if !ok {
        return;
      }
      ok := LoadDataTable();
    }

    /** The fixed header behind the wrapper, and the wrapper's own words. */
    function Header(): seq<byte>
      requires Shape()
      reads stage
    {
      stage[WRAPPER..STAGED]
    }

    function Field(i: nat): nat
      requires Shape() && i + 1 < STAGED
      reads stage
    {
      U16(stage[i], stage[i + 1])
    }

    /** The first checks of `parse_o65_header`: magic and mode. */
    method CheckMagic() returns (ok: bool)
      requires Shape()
      ensures ok <==> Magic(Header())
    {
      ok := stage[22] == 0x01 && stage[23] == 0 && stage[24] == 0x6f && stage[25] == 0x36 && stage[26] == 0x35
            && stage[27] == 0 && stage[28] == 0 && stage[29] == 0x08;
      assert Header()[..8] == stage[22..30];
      assert stage[22..30] == [stage[22], stage[23], stage[24], stage[25], stage[26], stage[27], stage[28], stage[29]];
      if Magic(Header()) {
        assert forall i :: 0 <= i < 8 ==> stage[22..30][i] == MAGIC[i];
      }
    }

    lemma HeaderWords()
      requires Shape()
      ensures forall i :: 0 <= i < HEADER_SIZE - 1 ==> WordAt(Header(), i) == Field(WRAPPER + i)
    {
      hide U16;
    }

    /** The sums of `parse_o65_header`, carry by carry; the last carry is lost. */
    method CheckSums() returns (ok: bool)
      requires Shape()
      ensures ok <==> Field(34) == Field(32) && Field(38) == (Field(32) + Field(36)) % WORD
                      && ((Field(32) + Field(36)) % WORD + Field(40)) % WORD == Field(14)
    {
      hide U16, Plus, Carries;
      var textLo, textHi, dataLo, dataHi, bssLo, bssHi := stage[32], stage[33], stage[36], stage[37], stage[40],
        stage[41];
      EqualWords(stage[34], stage[35], textLo, textHi);
      if stage[34] != textLo || stage[35] != textHi {
        return false;
      }
      var initLo := Plus(textLo, dataLo, false);
      var initHi := Plus(textHi, dataHi, Carries(textLo, dataLo, false));
      ByteSums(textLo, textHi, dataLo, dataHi);
      EqualWords(stage[38], stage[39], initLo, initHi);
      if stage[38] != initLo || stage[39] != initHi {
        return false;
      }
      var allLo := Plus(initLo, bssLo, false);
      var allHi := Plus(initHi, bssHi, Carries(initLo, bssLo, false));
      ByteSums(initLo, initHi, bssLo, bssHi);
      EqualWords(allLo, allHi, stage[14], stage[15]);
      ok := allLo == stage[14] && allHi == stage[15];
    }

    /** `parse_o65_header`; FNR_ALLOC and FNR_ZP are wrapper words 14 and 20. */
    method ParseO65Header() returns (ok: bool)
      requires Shape()
      modifies `text_size, `data_size, `bss_size, `src_ptr
      ensures ok <==> HeaderAccepted(Header(), Field(14), Field(20))
      ensures ok ==> Sizes(text_size, data_size, bss_size) == SizesOf(Header()) && src_ptr == MODULE_PTR + HEADER_SIZE
    {
      hide Magic, U16, WordAt;
      HeaderWords();
      ok := CheckMagic();
      if !ok {
        return;
      }
      ok := CheckSums();
      if !ok {
        return;
      }
      text_size, data_size, bss_size := Field(32), Field(36), Field(40);
      ok := Field(30) == 0 && Field(42) == 0 && Field(44) == Field(20) && Field(46) == 0;
      src_ptr := MODULE_PTR + HEADER_SIZE;
    }

    /** After the header transfer: 48 bytes staged, nothing buffered. */
    ghost predicate Staged()
      reads `module_end, `disk_index, `disk_count, `disk_iocb, stage, disk
    {
      && Shape() && disk_iocb <= 112 && MODULE_PTR <= module_end < WORD
      && disk_index == disk_count && disk_index <= 128 && disk.pos == STAGED <= |disk.file|
      && stage[..] == disk.file[..STAGED]
    }

    /** The module bytes behind the fixed header. */
    function Body(): seq<byte>
      reads `module_end
    {
      if |Module()| < HEADER_SIZE then [] else Module()[HEADER_SIZE..]
    }

    lemma StreamingBegins()
      requires Staged() && src_ptr == MODULE_PTR + HEADER_SIZE
      ensures Streaming() && Rest() == Body()
    {
    }

    /** `@copy` and `@clear`: the link image goes to its place. */
    method PlaceImage() returns (ok: bool)
      requires Shape() && Streaming() && r_start + text_size + data_size + bss_size <= MEMORY
      modifies `src_ptr, `disk_index, `disk_count, `dest_ptr, `byte_count, mem, bank, iocbs, buffer, disk
      ensures Shape() && CioKept()
      ensures var init := text_size + data_size;
              && (ok ==> Streaming() && init <= |old(Rest())| && Rest() == old(Rest())[init..]
                         && mem[..] == Place(old(mem[..]), r_start, old(Rest())[..init] + Zeros(bss_size)))
              && (!ok && Complete() ==> init > |old(Rest())| || disk.failed)
      ensures forall a :: 0 <= a < MEMORY && !(r_start <= a < r_start + text_size + data_size + bss_size) ==>
                mem[a] == old(mem[a])
    {
      hide Rest, Streaming;
      ghost var r, m := Rest(), mem[..];
      dest_ptr := r_start;
      byte_count := text_size + data_size;
      ghost var init := byte_count;
      ok := CopyInit();
      if !ok {
        return;
      }
      byte_count := bss_size;
      ghost var mid := mem[..];
      ClearBss();
      PlacedPointwise(m, r_start, r[..init] + Zeros(bss_size), mem[..]);
    }

    /** `load_module` once the header is accepted. */
    method LoadBody() returns (ok: bool)
      requires Shape() && Streaming() && 0 < r_start && r_start + text_size + data_size + bss_size <= MEMORY
      requires text_size < WORD && data_size < WORD
      modifies `src_ptr, `disk_index, `disk_count, `dest_ptr, `byte_count,
               `reloc_ptr, `segment_size, `reloc_offset, mem, bank, iocbs, buffer, disk
      ensures Shape() && CioKept()
      ensures var r := Load(old(mem[..]), Sizes(text_size, data_size, bss_size), old(Rest()), r_start);
              && (ok ==> r == Loaded(mem[..]) && src_ptr == module_end)
              && (!ok && Complete() ==> r == NoLoad || disk.failed)
      ensures forall a :: 0 <= a < MEMORY && !(r_start - 1 <= a < r_start + text_size + data_size + bss_size) ==>
                mem[a] == old(mem[a])
    {
      hide Rest, Streaming, PatchAll, ParseTables, Place, SkipOptions;
      ok := SkipO65Options();
      if !ok {
        return;
      }
      ok := PlaceImage();
      if !ok {
        return;
      }
      ok := LoadTables();
    }

    /** `load_module`. */
    method LoadModule() returns (ok: bool)
      requires Shape() && Staged() && 0 < r_start && r_start + Field(14) <= MEMORY && SumsFit(SizesOf(Header()))
      modifies `src_ptr, `disk_index, `disk_count, `text_size, `data_size, `bss_size, `dest_ptr, `byte_count,
               `reloc_ptr, `segment_size, `reloc_offset, mem, bank, iocbs, buffer, disk
      ensures Shape() && CioKept()
      ensures ok ==> src_ptr == module_end
                     && LoadsTo(old(mem[..]), Header(), Field(14), Field(20), Body(), r_start, mem[..])
      ensures !ok && Complete() && !disk.failed ==>
                CannotLoad(old(mem[..]), Header(), Field(14), Field(20), Body(), r_start)
      ensures forall a :: 0 <= a < MEMORY && !(r_start - 1 <= a < r_start + Field(14)) ==> mem[a] == old(mem[a])
    {
      hide Rest, Streaming, Body, Staged, Load, U16, HeaderAccepted;
      ok := ParseO65Header();
      if !ok {
        return;
      }
      AllocIsTotal(Header(), Field(14), Field(20));
      WordFits(Header(), 10);
      WordFits(Header(), 14);
      StreamingBegins();
      ok := LoadBody();
    }
  }
}

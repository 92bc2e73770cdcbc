/** The fixed o65 header as the loader reads it on the Atari, and as the build
    gate measures it on the host. The two have to agree. */
module O65Header {
  import opened Bytes
  import opened O65

  const HEADER_SIZE := 26
  const BUDGET: nat := 3072
  const ZP_SIZE: nat := 26
  const MAGIC: seq<byte> := [0x01, 0x00, 0x6f, 0x36, 0x35, 0x00, 0x00, 0x08]

  datatype Sizes = Sizes(text: nat, data: nat, bss: nat)

  function WordAt(h: seq<byte>, i: nat): nat
    requires i + 1 < |h|
  {
    U16(h[i], h[i + 1])
  }

  lemma WordFits(h: seq<byte>, i: nat)
    requires i + 1 < |h|
    ensures WordAt(h, i) < WORD
  {
  }

  predicate Magic(h: seq<byte>) {
    |h| >= 8 && h[..8] == MAGIC
  }

  function SizesOf(h: seq<byte>): Sizes
    requires |h| >= HEADER_SIZE
  {
    Sizes(WordAt(h, 10), WordAt(h, 14), WordAt(h, 18))
  }

  /** The loader's checks in words; its sums are modulo 2^16. */
  predicate HeaderAccepted(h: seq<byte>, alloc: nat, zp: nat)
    requires |h| >= HEADER_SIZE
  {
    var z := SizesOf(h);
    && Magic(h)
    && WordAt(h, 8) == 0
    && WordAt(h, 12) == z.text
    && WordAt(h, 16) == (z.text + z.data) % WORD
    && ((z.text + z.data) % WORD + z.bss) % WORD == alloc
    && WordAt(h, 20) == 0
    && WordAt(h, 22) == zp
    && WordAt(h, 24) == 0
  }

  /** The header as its 26 bytes: magic, mode, seven words of which the sums are
      modulo 2^16, and a stack word of 0. */
  lemma HeaderInBytes(h: seq<byte>, alloc: nat, zp: nat)
    requires |h| >= HEADER_SIZE
    ensures var g: seq<int> := h;
            var text, data, bss := g[10] + 256 * g[11], g[14] + 256 * g[15], g[18] + 256 * g[19];
            && SizesOf(h) == Sizes(text, data, bss)
            && (HeaderAccepted(h, alloc, zp) <==>
                  && h[0] == 1 && h[1] == 0 && h[2] == 0x6f && h[3] == 0x36 && h[4] == 0x35 && h[5] == 0 && h[6] == 0
                  && h[7] == 8
                  && h[8] == 0 && h[9] == 0
                  && h[12] == h[10] && h[13] == h[11]
                  && g[16] + 256 * g[17] == (text + data) % 65536
                  && ((text + data) % 65536 + bss) % 65536 == alloc
                  && h[20] == 0 && h[21] == 0
                  && g[22] + 256 * g[23] == zp
                  && h[24] == 0 && h[25] == 0)
  {
    hide Magic, WordAt;
    MagicInBytes(h);
    WordInBytes(h, 8);
    WordInBytes(h, 10);
    WordInBytes(h, 12);
    WordInBytes(h, 14);
    WordInBytes(h, 16);
    WordInBytes(h, 18);
    WordInBytes(h, 20);
    WordInBytes(h, 22);
    WordInBytes(h, 24);
    SameWord(h, 12, 10);
  }

  lemma WordInBytes(h: seq<byte>, i: nat)
    requires i + 1 < |h|
    ensures var g: seq<int> := h; WordAt(h, i) == g[i] + 256 * g[i + 1]
    ensures WordAt(h, i) == 0 <==> h[i] == 0 && h[i + 1] == 0
  {
  }

  lemma SameWord(h: seq<byte>, i: nat, j: nat)
    requires i + 1 < |h| && j + 1 < |h|
    ensures WordAt(h, i) == WordAt(h, j) <==> h[i] == h[j] && h[i + 1] == h[j + 1]
  {
  }

  lemma MagicInBytes(h: seq<byte>)
    ensures Magic(h) <==>
            && |h| >= 8 && h[0] == 1 && h[1] == 0 && h[2] == 0x6f && h[3] == 0x36 && h[4] == 0x35 && h[5] == 0
            && h[6] == 0 && h[7] == 8
  {
    if |h| >= 8 {
      assert h[..8] == MAGIC <==> forall i :: 0 <= i < 8 ==> h[i] == MAGIC[i] by {
        assert forall i :: 0 <= i < 8 ==> h[..8][i] == h[i];
      }
    }
  }

  /** The segments fit a 16-bit address space together. */
  predicate SumsFit(z: Sizes) {
    z.text + z.data + z.bss < WORD
  }

  /** The wrapper's allocation limit, compared high byte first. */
  predicate InBudget(lo: byte, hi: byte) {
    hi < 0x0b || (hi == 0x0b && lo < 0xe7)
  }

  /** What the gate reports about a module. */
  datatype Report = Report(code: nat, initializedData: nat, bss: nat, zeroPage: nat, memloReservation: nat, total: nat)
  datatype Measured = Rejected | Measured(report: Report)

  /** The gate's reading of the same header, in unbounded arithmetic; `linked`
      says that the link map names only the hand-written object. */
  function Measure(module_: seq<byte>, linked: bool): Measured {
    if !Magic(module_) || |module_| < HEADER_SIZE then Rejected else
      var z := SizesOf(module_);
      if WordAt(module_, 8) != 0 || WordAt(module_, 12) != z.text || WordAt(module_, 16) != z.text + z.data
         || WordAt(module_, 20) != 0 || WordAt(module_, 24) != 0 || !linked then Rejected
      else
        var zp := WordAt(module_, 22);
        Measured(Report(z.text, z.data, z.bss, zp, z.text + z.data + z.bss, z.text + z.data + z.bss + zp))
  }

  predicate GatePasses(module_: seq<byte>, linked: bool) {
    var m := Measure(module_, linked);
    m.Measured? && m.report.total <= BUDGET
  }

  lemma BudgetInBytes(alloc: nat)
    requires alloc < WORD
    ensures InBudget(Lo(alloc), Hi(alloc)) <==> alloc + ZP_SIZE <= BUDGET
  {
  }

  /** Sums that fit are the same in sixteen bits and without bound. */
  lemma FittingSums(z: Sizes, bssBase: nat, alloc: nat)
    requires bssBase < WORD && alloc < WORD
    ensures SumsFit(z) ==> (bssBase == z.text + z.data <==> bssBase == (z.text + z.data) % WORD)
    ensures SumsFit(z) ==> (alloc == z.text + z.data + z.bss <==> ((z.text + z.data) % WORD + z.bss) % WORD == alloc)
    ensures alloc == z.text + z.data + z.bss ==> SumsFit(z)
  {
  }

  /** Gate and loader agree: for the 26-byte zero-page bank, a module the gate
      passes is accepted with exactly the reservation the gate reports, and a
      header the loader accepts passes the gate as long as its sums fit. */
  lemma GateAndLoaderAgree(m: seq<byte>, alloc: nat)
    requires |m| >= HEADER_SIZE && alloc < WORD
    ensures GatePasses(m, true) && Measure(m, true).report.zeroPage == ZP_SIZE
            && Measure(m, true).report.memloReservation == alloc
            <==> HeaderAccepted(m, alloc, ZP_SIZE) && InBudget(Lo(alloc), Hi(alloc)) && SumsFit(SizesOf(m))
  {
    hide WordAt, Magic, Lo, Hi, InBudget, SumsFit;
    BudgetInBytes(alloc);
    WordFits(m, 16);
    FittingSums(SizesOf(m), WordAt(m, 16), alloc);
  }

  /** The words of a header for given sizes, its sums modulo 2^16. */
  function FieldOf(z: Sizes, i: nat): nat {
    if i == 10 || i == 12 then z.text
    else if i == 14 then z.data
    else if i == 16 then (z.text + z.data) % WORD
    else if i == 18 then z.bss
    else if i == 22 then ZP_SIZE
    else 0
  }

  function HeaderOf(z: Sizes): (h: seq<byte>)
    ensures |h| == HEADER_SIZE
  {
    seq(HEADER_SIZE, i requires 0 <= i < HEADER_SIZE =>
      if i < 8 then MAGIC[i] else if i % 2 == 0 then Lo(FieldOf(z, i)) else Hi(FieldOf(z, i - 1)))
  }

  predicate SizesFit(z: Sizes) {
    z.text < WORD && z.data < WORD && z.bss < WORD
  }

  lemma FieldAt(z: Sizes, i: nat)
    requires SizesFit(z) && 8 <= i < HEADER_SIZE && i % 2 == 0
    ensures WordAt(HeaderOf(z), i) == FieldOf(z, i)
  {
    TwoParts(FieldOf(z, i));
  }

  /** Without that condition they differ: every header whose sums wrap is accepted
      by the loader, for the remainder as its allocation, and not by the gate. */
  lemma WrappedSumsDiffer(z: Sizes)
    requires SizesFit(z) && !SumsFit(z)
    ensures HeaderAccepted(HeaderOf(z), ((z.text + z.data) % WORD + z.bss) % WORD, ZP_SIZE)
    ensures SizesOf(HeaderOf(z)) == z && !GatePasses(HeaderOf(z), true)
    ensures var z := Sizes(0x8000, 0x8000, 0); SizesFit(z) && !SumsFit(z) && InBudget(Lo(0), Hi(0))
  {
    hide WordAt, HeaderOf;
    HeaderMagic(z);
    FieldAt(z, 8);
    FieldAt(z, 10);
    FieldAt(z, 12);
    FieldAt(z, 14);
    FieldAt(z, 16);
    FieldAt(z, 18);
    FieldAt(z, 20);
    FieldAt(z, 22);
    FieldAt(z, 24);
  }

  lemma HeaderMagic(z: Sizes)
    ensures Magic(HeaderOf(z))
  {
    assert HeaderOf(z)[..8] == MAGIC;
  }

  /** The 16-bit addition of the loader: low bytes, then high bytes with carry. */
  lemma ByteSums(alo: byte, ahi: byte, blo: byte, bhi: byte)
    ensures U16(Plus(alo, blo, false), Plus(ahi, bhi, Carries(alo, blo, false)))
              == (U16(alo, ahi) + U16(blo, bhi)) % WORD
  {
    LinkParts(blo, bhi);
    WordCarry(alo, ahi, U16(blo, bhi));
  }

  lemma EqualWords(alo: byte, ahi: byte, blo: byte, bhi: byte)
    ensures U16(alo, ahi) == U16(blo, bhi) <==> alo == blo && ahi == bhi
  {
  }
}

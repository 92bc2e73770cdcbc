/** Loading as a function: from module bytes to memory, and what that means for
    the link image the module was made from. */
module O65Load {
  import opened Bytes
  import opened O65
  import opened O65Header

  datatype Tail = NoTail | Tail(rest: seq<byte>)
  datatype Loaded = NoLoad | Loaded(mem: seq<byte>)

  /** Header options: a length byte that counts itself, up to a zero. */
  function SkipOptions(b: seq<byte>): Tail
    decreases |b|
  {
    if b == [] then NoTail
    else if b[0] == 0 then Tail(b[1..])
    else if b[0] < 2 || b[0] > |b| then NoTail
    else SkipOptions(b[b[0]..])
  }

  /** One option off the front: its length byte counts itself. */
  lemma OptionStep(r: seq<byte>)
    ensures r == [] ==> SkipOptions(r) == NoTail
    ensures r != [] && r[0] == 0 ==> SkipOptions(r) == Tail(r[1..])
    ensures r != [] && r[0] == 1 ==> SkipOptions(r) == NoTail
    ensures r != [] && r[0] >= 2 ==>
              SkipOptions(r) == if r[0] - 1 <= |r[1..]| then SkipOptions(r[1..][r[0] - 1..]) else NoTail
  {
    if r != [] && 2 <= r[0] <= |r| {
      assert r[1..][r[0] - 1..] == r[r[0]..];
    }
  }

  /** Two options of three and four bytes, whatever they hold, then the end. */
  lemma OptionsInBytes(a: byte, b: byte, c: byte, d: byte, e: byte, rest: seq<byte>)
    ensures SkipOptions([3, a, b, 4, c, d, e, 0] + rest) == Tail(rest)
    ensures SkipOptions([1] + rest) == NoTail && SkipOptions([3, a]) == NoTail
  {
    var s := [3, a, b, 4, c, d, e, 0] + rest;
    var s1, s2 := [4, c, d, e, 0] + rest, [0] + rest;
    assert s[0] == 3 && s[3..] == s1 && s1[0] == 4 && s1[4..] == s2 && s2[0] == 0 && s2[1..] == rest;
    assert SkipOptions(s2) == Tail(rest);
    assert SkipOptions(s1) == SkipOptions(s2);
    var bad := [1] + rest;
    assert bad[0] == 1;
  }

  function Zeros(n: nat): seq<byte> {
    seq(n, _ => 0)
  }

  function Place(mem: seq<byte>, at: nat, bytes: seq<byte>): (r: seq<byte>)
    requires Bytes64K(mem) && at + |bytes| <= MEMORY
    ensures Bytes64K(r)
    ensures forall a :: 0 <= a < MEMORY ==> r[a] == if at <= a < at + |bytes| then bytes[a - at] else mem[a]
  {
    mem[..at] + bytes + mem[at + |bytes|..]
  }

  lemma PlacedPointwise(mem: seq<byte>, at: nat, bytes: seq<byte>, r: seq<byte>)
    requires Bytes64K(mem) && Bytes64K(r) && at + |bytes| <= MEMORY
    requires forall a :: 0 <= a < MEMORY ==> r[a] == if at <= a < at + |bytes| then bytes[a - at] else mem[a]
    ensures r == Place(mem, at, bytes)
  {
  }

  function Total(z: Sizes): nat {
    z.text + z.data + z.bss
  }

  /** What follows the initialised bytes: no imports, two tables, no exports. */
  datatype Tables = NoTables | Tables(text: seq<Site>, data: seq<Site>)

  function ParseTables(b: seq<byte>, z: Sizes): Tables {
    if |b| < 2 || b[0] != 0 || b[1] != 0 then NoTables else
      var t := ParseTable(b[2..], NO_OFFSET, z.text);
      if t.BadTable? then NoTables else
        var d := ParseTable(t.rest, NO_OFFSET, z.data);
        if d.BadTable? || d.rest != [0, 0] then NoTables else Tables(t.sites, d.sites)
  }

  /** The effect of `load_module` on memory, for the bytes behind the header. */
  function Load(mem: seq<byte>, z: Sizes, body: seq<byte>, start: nat): (r: Loaded)
    requires Bytes64K(mem) && start + Total(z) <= MEMORY
    ensures r.Loaded? ==> Bytes64K(r.mem)
  {
    var o := SkipOptions(body);
    if o.NoTail? || |o.rest| < z.text + z.data then NoLoad else
      var init := z.text + z.data;
      var t := ParseTables(o.rest[init..], z);
      if t.NoTables? then NoLoad else
        var link := Place(mem, start, o.rest[..init] + Zeros(z.bss));
        Loaded(PatchAll(PatchAll(link, t.text, start, start), t.data, start + z.text, start))
  }

  /** A header and a body that load, and what memory becomes. */
  ghost predicate LoadsTo(before: seq<byte>, header: seq<byte>, alloc: nat, zp: nat, body: seq<byte>, start: nat,
                          after: seq<byte>)
    requires Bytes64K(before) && |header| == HEADER_SIZE
  {
    && HeaderAccepted(header, alloc, zp)
    && start + Total(SizesOf(header)) <= MEMORY
    && Load(before, SizesOf(header), body, start) == Loaded(after)
  }

  ghost predicate CannotLoad(before: seq<byte>, header: seq<byte>, alloc: nat, zp: nat, body: seq<byte>, start: nat)
    requires Bytes64K(before) && |header| == HEADER_SIZE
  {
    HeaderAccepted(header, alloc, zp) && start + Total(SizesOf(header)) <= MEMORY ==>
      Load(before, SizesOf(header), body, start) == NoLoad
  }

  /** An accepted header whose sums fit asks for exactly its allocation. */
  lemma AllocIsTotal(header: seq<byte>, alloc: nat, zp: nat)
    requires |header| == HEADER_SIZE && HeaderAccepted(header, alloc, zp) && SumsFit(SizesOf(header))
    ensures Total(SizesOf(header)) == alloc
  {
    hide WordAt, Magic;
  }

  /** Tables that are accepted stand between two zero bytes for no imports and two
      for no exports, and nothing follows. */
  lemma TablesInBytes(b: seq<byte>, z: Sizes)
    requires ParseTables(b, z).Tables?
    ensures |b| >= 6 && b[0] == 0 && b[1] == 0 && b[|b| - 2] == 0 && b[|b| - 1] == 0
  {
    hide ParseTable;
    var t := ParseTable(b[2..], NO_OFFSET, z.text);
    var d := ParseTable(t.rest, NO_OFFSET, z.data);
    TailOfTable(b[2..], NO_OFFSET, z.text);
    TailOfTable(t.rest, NO_OFFSET, z.data);
    assert d.rest[0] == b[|b| - 2] && d.rest[1] == b[|b| - 1];
  }

  /** Whatever loads: behind the options stand TEXT and DATA, two zero bytes for no
      imports, the tables, and two zero bytes for no exports at the very end. */
  lemma LoadedInBytes(mem: seq<byte>, z: Sizes, body: seq<byte>, start: nat)
    requires Bytes64K(mem) && start + Total(z) <= MEMORY && Load(mem, z, body, start).Loaded?
    ensures var o, init := SkipOptions(body), z.text + z.data;
            && o.Tail? && |o.rest| >= init + 6
            && o.rest[init] == 0 && o.rest[init + 1] == 0
            && o.rest[|o.rest| - 2] == 0 && o.rest[|o.rest| - 1] == 0
  {
    hide ParseTables, SkipOptions, PatchAll;
    var rest, init := SkipOptions(body).rest, z.text + z.data;
    TablesInBytes(rest[init..], z);
  }

  /** What a table leaves is the end of what it was read from. */
  lemma {:induction false} TailOfTable(b: seq<byte>, offset: nat, size: nat)
    ensures var t := ParseTable(b, offset, size);
            t.Table? ==> |t.rest| < |b| && t.rest == b[|b| - |t.rest|..]
    decreases |b|, 1
  {
    if b != [] && b[0] != 0 {
      if b[0] == 0xff {
        TailOfTable(b[1..], (offset + 254) % WORD, size);
      } else {
        TailOfRecord(b[1..], (offset + b[0]) % WORD, size);
      }
    }
  }

  lemma {:induction false} TailOfRecord(b: seq<byte>, at: nat, size: nat)
    ensures var t := ParseRecord(b, at, size);
            t.Table? ==> |t.rest| < |b| && t.rest == b[|b| - |t.rest|..]
    decreases |b|, 0
  {
    if b != [] {
      TailOfTable(b[1..], at, size);
      if |b| >= 2 {
        TailOfTable(b[2..], at, size);
      }
    }
  }

  // ----------------------------------------------------------------- encoding

  /** A link image: options, segments linked at 0, and its relocation sites. */
  datatype Image = Image(options: seq<seq<byte>>, text: seq<byte>, data: seq<byte>, bss: nat,
                         textSites: seq<Site>, dataSites: seq<Site>)

  predicate ImageOk(img: Image) {
    && (forall i :: 0 <= i < |img.options| ==> 1 <= |img.options[i]| <= 254)
    && |img.text| + |img.data| + img.bss < WORD
    && Spaced(img.textSites, 0, |img.text|) && Spaced(img.dataSites, 0, |img.data|)
  }

  function ImageSizes(img: Image): Sizes {
    Sizes(|img.text|, |img.data|, img.bss)
  }

  function EncodeOptions(options: seq<seq<byte>>): seq<byte>
    requires forall i :: 0 <= i < |options| ==> |options[i]| <= 254
  {
    if options == [] then [0] else [|options[0]| + 1] + options[0] + EncodeOptions(options[1..])
  }

  function EncodeBody(img: Image): seq<byte>
    requires ImageOk(img)
  {
    EncodeOptions(img.options) + (img.text + img.data
    + ([0, 0] + (EncodeTable(img.textSites, 0) + (EncodeTable(img.dataSites, 0) + [0, 0]))))
  }

  lemma {:induction false} OptionsSkipped(options: seq<seq<byte>>, rest: seq<byte>)
    requires forall i :: 0 <= i < |options| ==> 1 <= |options[i]| <= 254
    ensures SkipOptions(EncodeOptions(options) + rest) == Tail(rest)
  {
    var b := EncodeOptions(options) + rest;
    if options == [] {
      assert b[1..] == rest;
    } else {
      assert b[b[0]..] == EncodeOptions(options[1..]) + rest;
      OptionsSkipped(options[1..], rest);
    }
  }

  lemma TablesRoundTrip(img: Image)
    requires ImageOk(img)
    ensures ParseTables([0, 0] + (EncodeTable(img.textSites, 0) + (EncodeTable(img.dataSites, 0) + [0, 0])),
                        ImageSizes(img))
            == Tables(img.textSites, img.dataSites)
  {
    var d := EncodeTable(img.dataSites, 0) + [0, 0];
    var b := [0, 0] + (EncodeTable(img.textSites, 0) + d);
    assert b[2..] == EncodeTable(img.textSites, 0) + d;
    TableRoundTrip(img.textSites, 0, |img.text|, d);
    TableRoundTrip(img.dataSites, 0, |img.data|, [0, 0]);
  }

  /** The link image in memory, before anything is relocated. */
  function Linked(mem: seq<byte>, img: Image, start: nat): seq<byte>
    requires Bytes64K(mem) && start + |img.text| + |img.data| + img.bss <= MEMORY
  {
    Place(mem, start, img.text + img.data + Zeros(img.bss))
  }

  lemma EncodedLoads(mem: seq<byte>, img: Image, start: nat)
    requires Bytes64K(mem) && ImageOk(img) && start + Total(ImageSizes(img)) <= MEMORY
    ensures Load(mem, ImageSizes(img), EncodeBody(img), start) ==
            Loaded(PatchAll(PatchAll(Linked(mem, img, start), img.textSites, start, start),
                            img.dataSites, start + |img.text|, start))
  {
    hide ParseTables, SkipOptions, EncodeOptions, EncodeTable, PatchAll, Place;
    var tables := [0, 0] + (EncodeTable(img.textSites, 0) + (EncodeTable(img.dataSites, 0) + [0, 0]));
    var rest := img.text + img.data + tables;
    OptionsSkipped(img.options, rest);
    TablesRoundTrip(img);
    var init := |img.text| + |img.data|;
    assert rest[..init] == img.text + img.data && rest[init..] == tables;
  }

  /** What a loaded image has to be: every site, in either segment, holds its
      part of link address plus base, and every other byte is the link image's. */
  ghost predicate LoadedAt(link: seq<byte>, after: seq<byte>, img: Image, start: nat)
    requires Bytes64K(link) && Bytes64K(after) && ImageOk(img) && start + Total(ImageSizes(img)) <= MEMORY
  {
    var dataStart := start + |img.text|;
    && (forall i :: 0 <= i < |img.textSites| ==> Relocated(link, after, img.textSites[i], start, start))
    && (forall i :: 0 <= i < |img.dataSites| ==> Relocated(link, after, img.dataSites[i], dataStart, start))
    && (forall a :: 0 <= a < MEMORY && Uncovered(img.textSites, start, a) && Uncovered(img.dataSites, dataStart, a) ==>
          after[a] == link[a])
  }

  lemma BothSegments(link: seq<byte>, mid: seq<byte>, after: seq<byte>, img: Image, start: nat)
    requires Bytes64K(link) && Bytes64K(mid) && Bytes64K(after) && ImageOk(img)
             && start + Total(ImageSizes(img)) <= MEMORY
    requires AllRelocated(link, mid, img.textSites, start, |img.text|, start)
    requires AllRelocated(mid, after, img.dataSites, start + |img.text|, |img.data|, start)
    ensures LoadedAt(link, after, img, start)
  {
    hide Relocated;
    var dataStart := start + |img.text|;
    forall i | 0 <= i < |img.textSites| ensures Relocated(link, after, img.textSites[i], start, start) {
      var s := img.textSites[i];
      assert AgreeOn(mid, after, s, start) by {
        forall a | 0 <= a < MEMORY && Covers(s, start, a) ensures mid[a] == after[a] {
          assert Uncovered(img.dataSites, dataStart, a);
        }
      }
      RelocatedLocally(link, link, mid, after, s, start, start);
    }
    forall i | 0 <= i < |img.dataSites| ensures Relocated(link, after, img.dataSites[i], dataStart, start) {
      var s := img.dataSites[i];
      assert AgreeOn(mid, link, s, dataStart) by {
        forall a | 0 <= a < MEMORY && Covers(s, dataStart, a) ensures mid[a] == link[a] {
          assert Uncovered(img.textSites, start, a);
        }
      }
      RelocatedLocally(mid, link, after, after, s, dataStart, start);
    }
  }

  /** Loading preserves meaning: the encoding of any image loads, at any start,
      into that image relocated, with its BSS zero and nothing else touched. */
  lemma LoadingPreservesMeaning(mem: seq<byte>, img: Image, start: nat)
    requires Bytes64K(mem) && ImageOk(img) && start < WORD && start + Total(ImageSizes(img)) <= MEMORY
    ensures var r := Load(mem, ImageSizes(img), EncodeBody(img), start);
            && r.Loaded?
            && LoadedAt(Linked(mem, img, start), r.mem, img, start)
            && (forall a :: start + |img.text| + |img.data| <= a < start + Total(ImageSizes(img)) ==> r.mem[a] == 0)
            && (forall a :: 0 <= a < MEMORY && !(start <= a < start + Total(ImageSizes(img))) ==> r.mem[a] == mem[a])
  {
    hide Load, EncodeBody, Relocated, PatchAll;
    var link := Linked(mem, img, start);
    var mid := PatchAll(link, img.textSites, start, start);
    var after := PatchAll(mid, img.dataSites, start + |img.text|, start);
    EncodedLoads(mem, img, start);
    PatchAllRelocates(link, img.textSites, start, |img.text|, start);
    PatchAllRelocates(mid, img.dataSites, start + |img.text|, |img.data|, start);
    BothSegments(link, mid, after, img, start);
    forall a | 0 <= a < MEMORY && !(start <= a < start + |img.text| + |img.data|) ensures after[a] == link[a] {
      assert Uncovered(img.textSites, start, a) && Uncovered(img.dataSites, start + |img.text|, a);
    }
  }

  // ----------------------------------------------------- bounds for any module

  /** The sites of a module that loads are the ones its tables hold. */
  ghost predicate ModuleNoStray(z: Sizes, body: seq<byte>) {
    var o := SkipOptions(body);
    o.Tail? && |o.rest| >= z.text + z.data ==>
      var t := ParseTables(o.rest[z.text + z.data..], z);
      t.Tables? ==> NoStray(t.text) && NoStray(t.data)
  }

  /** Whatever bytes a module is made of, a load that succeeds leaves memory
      outside its allocation alone and its BSS zero; only a WORD at $FFFF could
      reach the one byte before the allocation. */
  lemma AnyLoadStays(mem: seq<byte>, z: Sizes, body: seq<byte>, start: nat)
    requires Bytes64K(mem) && 0 < start && start + Total(z) <= MEMORY && SumsFit(z)
    ensures var r := Load(mem, z, body, start);
            r.Loaded? ==>
              && (forall a :: 0 <= a < MEMORY && !(start - 1 <= a < start + Total(z)) ==> r.mem[a] == mem[a])
              && (forall a :: start + z.text + z.data <= a < start + Total(z) ==> r.mem[a] == 0)
              && (ModuleNoStray(z, body) ==> r.mem[start - 1] == mem[start - 1])
  {
    hide PatchAll, ParseTable;
    var o := SkipOptions(body);
    if o.Tail? && |o.rest| >= z.text + z.data {
      var init := z.text + z.data;
      var t := ParseTables(o.rest[init..], z);
      if t.Tables? {
        var b := o.rest[init..];
        var link := Place(mem, start, o.rest[..init] + Zeros(z.bss));
        ParsedSitesAreChecked(b[2..], NO_OFFSET, z.text);
        ParsedSitesAreChecked(ParseTable(b[2..], NO_OFFSET, z.text).rest, NO_OFFSET, z.data);
        PatchAllStays(link, t.text, start, z.text, start);
        var mid := PatchAll(link, t.text, start, start);
        PatchAllStays(mid, t.data, start + z.text, z.data, start);
        var after := PatchAll(mid, t.data, start + z.text, start);
        forall a | start + init <= a < start + Total(z) ensures after[a] == 0 {
          assert after[a] == link[a] == Zeros(z.bss)[a - start - init];
        }
      }
    }
  }
}

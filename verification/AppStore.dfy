/** FAPP PUT and GET: a value moved in chunks through a store that may take or
    give less than it is asked for. */
module AppStore {
  import opened Bytes

  const CHUNK_SIZE: nat := 256
  const NEWLINE: byte := 10

  datatype Stored = Absent | Stored(value: seq<byte>)

  function Held(s: Stored): seq<byte> {
    if s.Absent? then [] else s.value
  }

  /** Writing v over the front of what is there; nothing is cut off. */
  function Overlay(prior: seq<byte>, v: seq<byte>): seq<byte> {
    v + if |v| < |prior| then prior[|v|..] else []
  }

  /** Byte by byte: the value in front, and behind it what was there. */
  lemma OverlayInBytes(prior: seq<byte>, v: seq<byte>)
    ensures |Overlay(prior, v)| == if |v| < |prior| then |prior| else |v|
    ensures forall i :: 0 <= i < |Overlay(prior, v)| ==> Overlay(prior, v)[i] == if i < |v| then v[i] else prior[i]
  {
  }

  /** Writing data at an offset no further than the end. */
  function WrittenAt(prior: seq<byte>, offset: nat, data: seq<byte>): seq<byte>
    requires offset <= |prior|
  {
    prior[..offset] + Overlay(prior[offset..], data)
  }

  /** The next part of a value continues the overlay of what went before. */
  lemma OverlayContinues(prior: seq<byte>, v: seq<byte>, offset: nat, n: nat)
    requires offset + n <= |v|
    ensures offset <= |Overlay(prior, v[..offset])|
    ensures WrittenAt(Overlay(prior, v[..offset]), offset, v[offset..offset + n]) == Overlay(prior, v[..offset + n])
  {
    var a := Overlay(prior, v[..offset]);
    assert a[..offset] == v[..offset];
    assert a[offset..] == if offset < |prior| then prior[offset..] else [];
    assert v[..offset + n] == v[..offset] + v[offset..offset + n];
  }

  lemma OverlayNothing(prior: seq<byte>)
    ensures Overlay(prior, []) == prior && WrittenAt(prior, 0, []) == prior
  {
  }

  /** The value is all there is exactly when it is at least as long as the old one. */
  lemma OverlayIsValue(prior: seq<byte>, v: seq<byte>)
    ensures Overlay(prior, v) == v <==> |prior| <= |v|
  {
    if |prior| > |v| {
      assert |Overlay(prior, v)| == |prior|;
    }
  }

  lemma SameMiddle(a: seq<byte>, x: seq<byte>, y: seq<byte>, b: seq<byte>)
    requires a + x + b == a + y + b
    ensures x == y
  {
    assert |x| == |y|;
    forall i | 0 <= i < |x| ensures x[i] == y[i] {
      assert (a + x + b)[|a| + i] == (a + y + b)[|a| + i];
    }
  }

  /** One key of the store. Whether a write at offset 0 starts the value afresh
      is the store's choice. `failed` remembers a call refused or lost, `stalled`
      a write that took nothing of something. */
  class Store {
    const afresh: bool
    var key: Stored
    ghost var failed: bool
    ghost var stalled: bool

    constructor (key: Stored, afresh: bool)
      ensures this.key == key && this.afresh == afresh && !failed && !stalled
    {
      this.key, this.afresh := key, afresh;
      failed, stalled := false, false;
    }

    /** What a write at offset 0 leaves behind the bytes it takes. */
    function Behind(): seq<byte>
      reads this
    {
      if afresh then [] else Held(key)
    }

    /** `fn_appstore_write`: any prefix may be taken, and a call reported as
        failed may still have had its effect. */
    method Write(offset: nat, data: array<byte>, at: nat, len: nat) returns (ok: bool, written: nat)
      requires at + len <= data.Length && offset <= |Held(key)|
      modifies this
      ensures written <= len && (failed <==> old(failed) || !ok)
      ensures stalled <==> old(stalled) || (ok && written == 0 < len)
      ensures || key == Stored(WrittenAt(old(if offset == 0 then Behind() else Held(key)), offset,
                                         data[at..at + written]))
              || (!ok && key == old(key))
    {
      ok, written := *, *;
      if written > len {
        written := len;
      }
      var happens: bool := *;
      if ok || happens {
        key := Stored(WrittenAt(if offset == 0 then Behind() else Held(key), offset, data[at..at + written]));
      }
      failed, stalled := failed || !ok, stalled || (ok && written == 0 < len);
    }

    /** `fn_appstore_read`: at least a byte while there is one. */
    method Read(offset: nat, buf: array<byte>) returns (ok: bool, found: bool, eof: bool, bytes_read: nat)
      modifies buf, `failed
      ensures failed <==> old(failed) || !ok
      ensures ok ==> found == key.Stored?
      ensures ok && found ==>
                && bytes_read <= buf.Length
                   && (bytes_read > 0 ==> offset + bytes_read <= |key.value|
                                          && buf[..bytes_read] == key.value[offset..offset + bytes_read])
                && (eof ==> offset + bytes_read >= |key.value|)
                && (bytes_read == 0 && buf.Length > 0 ==> offset >= |key.value|)
    {
      ok, found, eof, bytes_read := *, key.Stored?, false, 0;
      failed := failed || !ok;
      if !ok || key.Absent? {
        return;
      }
      var left := if offset < |key.value| then |key.value| - offset else 0;
      var most := if left < buf.Length then left else buf.Length;
      bytes_read := *;
      if bytes_read > most || (bytes_read == 0 < most) {
        bytes_read := most;
      }
      forall i | 0 <= i < bytes_read { buf[i] := key.value[offset + i]; }
      eof := *;
      eof := eof && bytes_read >= left;
      assert bytes_read > 0 ==> buf[..bytes_read] == key.value[offset..offset + bytes_read];
    }
  }

  class Fapp {
    const data_buf: array<byte>
    /** What has been printed of values. */
    var printed: seq<byte>

    constructor ()
      ensures data_buf.Length == CHUNK_SIZE && printed == [] && fresh(data_buf)
    {
      data_buf := new byte[CHUNK_SIZE](_ => 0);
      printed := [];
    }

    /** `do_put`; `left` is sixteen bits wide. */
    method DoPut(store: Store, value: array<byte>) returns (rc: nat, ghost done: nat)
      modifies store
      ensures rc == 0 || rc == 2
      ensures done <= value.Length % WORD && (rc == 0 ==> done == value.Length % WORD)
      ensures || store.key == Stored(Overlay(old(store.Behind()), value[..][..done]))
              || (rc == 2 && done == 0 && store.key == old(store.key))
      // Only a refused call or a stalled write stops it.
      ensures rc == 0 ==> store.failed == old(store.failed) && store.stalled == old(store.stalled)
      ensures rc == 2 ==> store.failed || store.stalled
    {
      hide Overlay, WrittenAt;
      ghost var behind, v := store.Behind(), value[..];
      OverlayNothing(behind);
      var p, left, offset := 0, value.Length % WORD, 0;
      assert left <= value.Length;
      done := 0;
      assert v[..0] == [];
      if left == 0 {
        var ok, written := store.Write(0, value, 0, 0);
        rc := if ok then 0 else 2;
        return;
      }
      while left != 0
        invariant p == offset == done && 0 <= left && offset + left == value.Length % WORD <= |v|
        invariant store.failed == old(store.failed) && store.stalled == old(store.stalled)
        invariant if offset == 0 then store.key == old(store.key) else store.key == Stored(Overlay(behind, v[..offset]))
        decreases left
      {
        OverlayContinues(behind, v, offset, 0);
        var chunk := if left > CHUNK_SIZE then CHUNK_SIZE else left;
        var ok, written := store.Write(offset, value, p, chunk);
        OverlayContinues(behind, v, offset, written);
        assert value[p..p + written] == v[offset..offset + written];
        if !ok {
          if store.key == Stored(Overlay(behind, v[..offset + written])) {
            done := offset + written;
          }
          return 2, done;
        }
        if written == 0 {
          return 2, done;
        }
        p := p + written;
        left := left - written;
        offset := offset + written;
        done := offset;
      }
      rc := 0;
    }

    /** `putchar` over the bytes read. */
    method Print(n: nat)
      requires n <= data_buf.Length
      modifies `printed
      ensures printed == old(printed) + data_buf[..n]
    {
      for i := 0 to n
        invariant printed == old(printed) + data_buf[..i]
      {
        printed := printed + [data_buf[i]];
        assert data_buf[..i + 1] == data_buf[..i] + [data_buf[i]];
      }
    }

    lemma NextPart(s: seq<byte>, offset: nat, n: nat)
      requires offset + n <= |s|
      ensures s[..offset + n] == s[..offset] + s[offset..offset + n]
    {
    }

    /** `do_get`. */
    method DoGet(store: Store) returns (rc: nat)
      requires data_buf.Length == CHUNK_SIZE
      modifies data_buf, `printed, store`failed
      ensures store.key == old(store.key)
      ensures rc == 0 ==> store.key.Stored? && printed == old(printed) + store.key.value + [10]
      ensures rc == 1 ==> store.key.Absent? && printed == old(printed)
      ensures rc == 2 ==> store.failed
      ensures rc != 2 ==> store.failed == old(store.failed)
      ensures rc <= 2
    {
      var offset := 0;
      while true
        invariant store.key == old(store.key) && store.failed == old(store.failed)
        invariant offset <= |Held(store.key)| && printed == old(printed) + Held(store.key)[..offset]
        invariant offset > 0 ==> store.key.Stored?
        decreases |Held(store.key)| - offset
      {
        var ok, found, eof, bytes_read := store.Read(offset, data_buf);
        if !ok {
          return 2;
        }
        if !found {
          return 1;
        }
        Print(bytes_read);
        NextPart(Held(store.key), offset, bytes_read);
        offset := offset + bytes_read;
        if eof || bytes_read == 0 {
          break;
        }
      }
      printed := printed + [NEWLINE];
      return 0;
    }

    /** PUT then GET. Of a new key GET prints exactly the value, followed by a
        newline, just when the value is shorter than 65536 bytes; of an existing
        key, when the value is that short, just when the store starts values
        afresh or the value is not shorter than what it replaces. */
    method PutThenGet(store: Store, value: array<byte>) returns (put: nat, got: nat)
      requires data_buf.Length == CHUNK_SIZE && value != data_buf
      modifies store, data_buf, `printed
      // Where no call fails and no write stalls, both succeed.
      ensures (put == 0 && got == 0) || store.failed || store.stalled
      ensures put == 0 && got == 0 ==>
                printed == old(printed) + Overlay(old(store.Behind()), value[..][..value.Length % WORD]) + [NEWLINE]
      ensures put == 0 && got == 0 && Held(old(store.key)) == [] ==>
                (printed == old(printed) + value[..] + [NEWLINE] <==> value.Length < WORD)
      ensures put == 0 && got == 0 && value.Length < WORD ==>
                (printed == old(printed) + value[..] + [NEWLINE]
                 <==> store.afresh || |Held(old(store.key))| <= value.Length)
    {
      hide WrittenAt;
      ghost var before, out, v := store.Behind(), printed, value[..];
      ghost var done;
      put, done := DoPut(store, value);
      got := 2;
      if put != 0 {
        return;
      }
      got := DoGet(store);
      if got == 0 {
        Printed(before, out, v);
      }
    }

    lemma Printed(before: seq<byte>, out: seq<byte>, v: seq<byte>)
      ensures var n := |v| % WORD; var shown := out + Overlay(before, v[..n]) + [NEWLINE];
              && (before == [] ==> (shown == out + v + [NEWLINE] <==> |v| < WORD))
              && (|v| < WORD ==> (shown == out + v + [NEWLINE] <==> |before| <= |v|))
    {
      var n := |v| % WORD;
      assert n <= |v| && (n == |v| <==> |v| < WORD);
      var shown := Overlay(before, v[..n]);
      if out + shown + [NEWLINE] == out + v + [NEWLINE] {
        SameMiddle(out, shown, v, [NEWLINE]);
      }
      if |v| < WORD {
        assert v[..n] == v;
        OverlayIsValue(before, v);
      }
    }
  }
}

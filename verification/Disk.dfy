/** The CIO side of the installer: one sequential file and one borrowed IOCB. */
module Disk {
  import opened Bytes

  /** An open file read through CIO. A transfer is all or nothing; it may fail
      although the file could satisfy it, and `failed` remembers that. */
  class Disk {
    const file: seq<byte>
    var pos: nat
    ghost var failed: bool

    constructor (file: seq<byte>)
      ensures this.file == file && pos == 0 && !failed
    {
      this.file := file;
      pos, failed := 0, false;
    }

    method Open() returns (ok: bool)
      modifies this
      ensures pos == 0
      ensures ok ==> failed == old(failed)
      ensures !ok ==> failed
    {
      pos := 0;
      ok := *;
      if !ok {
        failed := true;
      }
    }

    /** GET CHARACTERS of exactly n bytes. */
    method Get(buf: array<byte>, n: nat) returns (ok: bool)
      requires n <= buf.Length
      modifies this, buf
      ensures forall i :: n <= i < buf.Length ==> buf[i] == old(buf[i])
      ensures ok ==> pos == old(pos) + n <= |file| && buf[..n] == file[old(pos)..pos] && failed == old(failed)
      ensures !ok ==> old(pos) + n > |file| || failed
      ensures !ok ==> pos == old(pos) && (failed || !old(failed))
    {
      ok := *;
      if ok && pos + n <= |file| {
        forall i | 0 <= i < n { buf[i] := file[pos + i]; }
        pos := pos + n;
      } else {
        failed := failed || pos + n <= |file|;
        ok := false;
      }
    }
  }

  /** Contents that nobody vouches for. */
  method Scribble(a: array<byte>, lo: nat, hi: nat)
    requires lo <= hi <= a.Length
    modifies a
    ensures forall i :: 0 <= i < a.Length && !(lo <= i < hi) ==> a[i] == old(a[i])
  {
    for k := lo to hi
      invariant forall i :: 0 <= i < a.Length && !(lo <= i < hi) ==> a[i] == old(a[i])
    {
      a[k] := *;
    }
  }
}

/** `fnsvc_list_directory` against a file service that pages one fixed list. */
module Listing {
  import opened Bytes
  import opened ListCodec

  /** What the client can count on: pages of this list, of any size that fits, each
      compact or not, and errors at any time. */
  class FileService {
    const uri: seq<byte>
    const entries: seq<Entry>
    // For each entry sent, whether its page was compact.
    ghost var forms: seq<bool>
    // The status and the length of the latest answer.
    ghost var status: byte
    ghost var length: nat
    // A call that was refused, one answered with a bad status, an empty page
    // before the end.
    ghost var refused: bool
    ghost var rejected: bool
    ghost var stalled: bool

    constructor (uri: seq<byte>, entries: seq<Entry>)
      requires EntriesOk(entries) && |entries| < WORD
      ensures this.uri == uri && this.entries == entries && forms == []
      ensures Serves() && !refused && !rejected && !stalled
    {
      this.uri, this.entries, forms := uri, entries, [];
      status, length := 0, 0;
      refused, rejected, stalled := false, false, false;
    }

    predicate Serves() {
      EntriesOk(entries) && |entries| < WORD
    }

    /** The rest of the list has a page of k entries that fits. */
    predicate Fits(start: nat, k: nat, flags: byte)
      requires Serves() && start + k <= |entries|
    {
      |EncodePage(entries[start..start + k], flags, (0, 0, 0, 0))| <= IO_BUF_SIZE
    }

    /** The flag for more pages, the others as they are. */
    function WithMore(f: byte, more: bool): (r: byte)
      ensures More(r) == more && Compact(r) == Compact(f)
    {
      f / 2 * 2 + if more then 1 else 0
    }

    /** One entry always fits. */
    lemma OneFits(start: nat, flags: byte)
      requires Serves() && start <= |entries|
      ensures Fits(start, 0, flags) && (start < |entries| ==> Fits(start, 1, flags))
    {
      if start < |entries| {
        var es := entries[start..start + 1];
        assert es[1..] == [];
        assert EncodeEntries(es, Compact(flags)) == EncodeEntry(es[0], Compact(flags)) + [];
      }
    }

    /** LIST DIRECTORY. */
    method List(request: seq<byte>, response: array<byte>, ghost start: nat)
      returns (ok: bool, status: byte, len: nat, ghost count: nat, ghost flags: byte,
               ghost gap: (byte, byte, byte, byte))
      requires Serves() && response.Length == IO_BUF_SIZE
      requires ParseRequest(request) == Request(uri, start, MAX_PAYLOAD, SORT_BY_NAME) && start <= |entries|
      modifies this, response
      ensures refused == (old(refused) || !ok) && rejected == (old(rejected) || (ok && status != 0))
      ensures stalled == (old(stalled) || (ok && status == 0 && count == 0 && start < |entries|))
      ensures if ok then this.status == status && length == len
              else this.status == old(this.status) && length == old(length)
      ensures len <= IO_BUF_SIZE
      ensures ok && status == 0 ==>
                && start + count <= |entries| && len >= 2
                && (response[1] % 2 == 1 <==> start + count < |entries|)
                && response[..len] == EncodePage(entries[start..start + count], flags, gap)
      ensures forms == old(forms) + if ok && status == 0 then AllAlike(count, Compact(flags)) else []
    {
      hide EncodePage;
      ok, status, len, count, flags, gap := *, *, 0, 0, 0, (0, 0, 0, 0);
      if !ok || status != 0 {
        refused, rejected := refused || !ok, rejected || ok;
        if ok {
          len := *;
          len := if len <= IO_BUF_SIZE then len else IO_BUF_SIZE;
          this.status, length := status, len;
        }
        return;
      }
      var s := ParseRequest(request).start;
      var f: byte, k: nat := *, *;
      if s + k > |entries| {
        k := |entries| - s;
      }
      f := WithMore(f, s + k < |entries|);
      OneFits(s, f);
      if !Fits(s, k, f) {
        k := 1;
        f := WithMore(f, s + k < |entries|);
        OneFits(s, f);
      }
      len, gap := SendPage(response, s, k, f);
      count, flags := k, f;
      forms := forms + AllAlike(k, Compact(f));
      this.status, length := status, len;
      stalled := stalled || (k == 0 && s < |entries|);
    }

    /** The page into the response, with any four bytes where the client has none. */
    method SendPage(response: array<byte>, s: nat, k: nat, f: byte)
      returns (len: nat, ghost gap: (byte, byte, byte, byte))
      requires Serves() && response.Length == IO_BUF_SIZE && s + k <= |entries| && Fits(s, k, f)
      modifies response
      ensures HEADER <= len <= IO_BUF_SIZE && response[1] == f
      ensures response[..len] == EncodePage(entries[s..s + k], f, gap)
    {
      hide EncodePage;
      var g: (byte, byte, byte, byte) := *;
      gap := g;
      var page := EncodePage(entries[s..s + k], f, g);
      SameSize(entries[s..s + k], f, g);
      PageRoundTrip(entries[s..s + k], f, g);
      forall i | 0 <= i < |page| { response[i] := page[i]; }
      len := |page|;
      assert response[..len] == page;
    }

    lemma SameSize(es: seq<Entry>, flags: byte, gap: (byte, byte, byte, byte))
      requires EntriesOk(es)
      ensures |EncodePage(es, flags, gap)| == |EncodePage(es, flags, (0, 0, 0, 0))|
    {
    }
  }

  class Client {
    const req_buf: array<byte>
    const resp_buf: array<byte>
    const list_name: array<byte>
    var last_error: Error
    var last_status: byte
    var last_response_len: nat
    /** What the callback has been told. */
    var calls: seq<Call>

    constructor ()
      ensures Shape() && calls == [] && fresh(req_buf) && fresh(resp_buf) && fresh(list_name)
    {
      req_buf := new byte[IO_BUF_SIZE](_ => 0);
      resp_buf := new byte[IO_BUF_SIZE](_ => 0);
      list_name := new byte[LIST_NAME_MAX + 1](_ => 0);
      last_error, last_status, last_response_len, calls := None, 0, 0, [];
    }

    predicate Shape() {
      && req_buf.Length == IO_BUF_SIZE == resp_buf.Length && list_name.Length == LIST_NAME_MAX + 1
      && req_buf != resp_buf && req_buf != list_name && resp_buf != list_name
    }

    /** `put_u16le`. */
    method PutU16(off: nat, value: nat)
      requires Shape() && off + 2 <= IO_BUF_SIZE && value < WORD
      modifies req_buf
      ensures req_buf[..off] == old(req_buf[..off]) && req_buf[off..off + 2] == Le(value, 2)
    {
      req_buf[off] := value % 256;
      req_buf[off + 1] := value / 256 % 256;
      Word(value);
    }

    /** The request. */
    method BuildRequest(uri: seq<byte>, start: nat) returns (off: nat)
      requires Shape() && |uri| + FIXED <= IO_BUF_SIZE && start < WORD
      modifies req_buf
      ensures off <= IO_BUF_SIZE && req_buf[..off] == EncodeRequest(uri, start)
    {
      hide Le;
      off := 0;
      req_buf[off] := VERSION;
      off := off + 1;
      assert req_buf[..1] == [VERSION];
      PutU16(off, |uri|);
      off := off + 2;
      assert req_buf[..3] == [VERSION] + Le(|uri|, 2);
      forall i | 0 <= i < |uri| { req_buf[off + i] := uri[i]; }
      off := off + |uri|;
      assert req_buf[..off] == [VERSION] + Le(|uri|, 2) + uri;
      PutU16(off, start);
      off := off + 2;
      assert req_buf[..off] == [VERSION] + Le(|uri|, 2) + uri + Le(start, 2);
      PutU16(off, MAX_PAYLOAD);
      off := off + 2;
      assert req_buf[..off] == [VERSION] + Le(|uri|, 2) + uri + Le(start, 2) + Le(MAX_PAYLOAD, 2);
      req_buf[off] := SORT_BY_NAME;
      off := off + 1;
    }

    function GetU16(at: nat): nat
      requires Shape() && at + 2 <= IO_BUF_SIZE
      reads resp_buf
    {
      U16(resp_buf[at], resp_buf[at + 1])
    }

    lemma SliceOfSlice(s: seq<byte>, lo: nat, hi: nat, i: nat, j: nat)
      requires lo <= hi <= |s| && i <= j && lo + j <= hi
      ensures s[lo..hi][i..j] == s[lo + i..lo + j]
    {
      assert forall k :: 0 <= k < j - i ==> s[lo..hi][i..j][k] == s[lo..hi][i + k] == s[lo + i + k];
    }

    /** One entry of a response, on any bytes at all. */
    method EntryAt(at: nat, resp_len: nat, flags: byte) returns (fits: bool, pos: nat)
      requires Shape() && at <= resp_len <= IO_BUF_SIZE
      modifies list_name, `calls
      ensures var b := resp_buf[at..resp_len];
              && fits == EntryFits(b, Compact(flags))
              && (fits ==> pos == at + EntrySize(b, Compact(flags)) <= resp_len
                           && calls == old(calls) + [FirstCall(b, Compact(flags))])
              && (!fits ==> calls == old(calls))
    {
      hide CString, Long;
      ghost var b := resp_buf[at..resp_len];
      pos := at;
      if pos + 2 > resp_len {
        return false, pos;
      }
      var eflags := resp_buf[pos];
      pos := pos + 1;
      var name_len := resp_buf[pos];
      pos := pos + 1;
      if pos + name_len > resp_len || name_len >= list_name.Length {
        return false, pos;
      }
      SliceOfSlice(resp_buf[..], at, resp_len, 2, 2 + name_len);
      ghost var n := 2 + name_len;
      if at + n + 16 <= resp_len {
        SliceOfSlice(resp_buf[..], at, resp_len, n, n + 4);
        SliceOfSlice(resp_buf[..], at, resp_len, n + 8, n + 12);
      }
      CopyName(pos, name_len);
      pos := pos + name_len;
      var size, mtime := 0, 0;
      if !Compact(flags) {
        if pos + 16 > resp_len {
          return false, pos;
        }
        size := Long(resp_buf[pos..pos + 4]);
        mtime := Long(resp_buf[pos + 8..pos + 12]);
        pos := pos + 16;
      }
      calls := calls + [Call(eflags % 2 == 1, CString(list_name[..]), size, mtime)];
      fits := true;
    }

    /** The loop over the entries of one response. */
    method Entries(resp_len: nat, count: nat, flags: byte) returns (error: Error)
      requires Shape() && HEADER <= resp_len <= IO_BUF_SIZE
      modifies list_name, `calls
      ensures var d := DecodeEntries(resp_buf[HEADER..resp_len], count, Compact(flags));
              error == d.error && calls == old(calls) + d.calls
    {
      hide EntryFits, EntrySize, FirstCall, Compact;
      var pos, idx := HEADER, 0;
      ghost var all := DecodeEntries(resp_buf[HEADER..resp_len], count, Compact(flags));
      while idx < count
        invariant idx <= count && HEADER <= pos <= resp_len
        invariant var d := DecodeEntries(resp_buf[pos..resp_len], count - idx, Compact(flags));
                  all.error == d.error && old(calls) + all.calls == calls + d.calls
      {
        ghost var b, at := resp_buf[pos..resp_len], pos;
        var fits;
        fits, pos := EntryAt(pos, resp_len, flags);
        if !fits {
          return EntryBounds;
        }
        assert b[EntrySize(b, Compact(flags))..] == resp_buf[pos..resp_len];
        idx := idx + 1;
      }
      error := None;
    }

    /** The name, terminated, as the callback sees it. */
    method CopyName(pos: nat, name_len: nat)
      requires Shape() && name_len < list_name.Length && pos + name_len <= IO_BUF_SIZE
      modifies list_name
      ensures CString(list_name[..]) == CString(resp_buf[pos..pos + name_len])
    {
      forall i | 0 <= i < name_len { list_name[i] := resp_buf[pos + i]; }
      list_name[name_len] := 0;
      ghost var name := resp_buf[pos..pos + name_len];
      assert list_name[..] == name + [0] + list_name[name_len + 1..];
      Terminated(name, list_name[name_len + 1..]);
    }

    /** From the status on: the whole response, on any bytes at all. */
    method Response(resp_len: nat) returns (error: Error)
      requires Shape() && resp_len <= IO_BUF_SIZE
      modifies list_name, `calls
      ensures var d := Decode(resp_buf[..resp_len]); error == d.error && calls == old(calls) + d.calls
    {
      hide DecodeEntries;
      if resp_len < HEADER {
        return ShortResponse;
      }
      if resp_buf[0] != VERSION {
        return BadVersion;
      }
      if (HEADER + GetU16(8)) % WORD > resp_len {
        return EntriesBounds;
      }
      assert resp_buf[..resp_len][HEADER..] == resp_buf[HEADER..resp_len];
      error := Entries(resp_len, GetU16(6), resp_buf[1]);
    }

    /** One page is fetched and told. */
    method Page(service: FileService, ghost start: nat, off: nat) returns (error: Error, count: nat, more: bool)
      requires Shape() && service.Serves() && start <= |service.entries| && off <= IO_BUF_SIZE
      requires ParseRequest(req_buf[..off]) == Request(service.uri, start, MAX_PAYLOAD, SORT_BY_NAME)
      modifies service, resp_buf, list_name, `calls, `last_status, `last_response_len
      ensures error in {None, Transport, Status}
      ensures if error == Transport then last_status == old(last_status) && last_response_len == old(last_response_len)
              else last_status == service.status && last_response_len == service.length
      ensures error == None ==> last_status == 0
      ensures error == Status ==> last_status != 0
      ensures service.refused == (old(service.refused) || error == Transport)
      ensures service.rejected == (old(service.rejected) || error == Status)
      ensures service.stalled == (old(service.stalled) || (error == None && count == 0 && more))
      ensures error != None ==> calls == old(calls) && service.forms == old(service.forms)
      ensures error == None ==>
                && start + count <= |service.entries| && (more <==> start + count < |service.entries|)
                && |service.forms| == |old(service.forms)| + count && old(service.forms) <= service.forms
                && calls == old(calls)
                            + ToldIn(service.entries[start..start + count], service.forms[|old(service.forms)|..])
    {
      hide EncodePage, Decode, ParseRequest, ToldIn, AllTold, AllAlike;
      count, more := 0, false;
      var ok, status, resp_len;
      ghost var k: nat, flags: byte, gap: (byte, byte, byte, byte);
      ok, status, resp_len, k, flags, gap := service.List(req_buf[..off], resp_buf, start);
      if !ok {
        return Transport, 0, false;
      }
      last_status, last_response_len := status, resp_len;
      if status != 0 {
        return Status, 0, false;
      }
      PageTold(service.entries[start..start + k], flags, gap, old(service.forms));
      error := Response(resp_len);
      count, more := GetU16(6), More(resp_buf[1]);
    }

    /** The first entries of the list have been told, in the forms sent since. */
    ghost predicate ToldSince(service: FileService, told: nat, sent: nat, before: seq<Call>)
      reads `calls, service
    {
      && told <= |service.entries| && |service.forms| == sent + told
      && calls == before + ToldIn(service.entries[..told], service.forms[sent..])
    }

    /** `fnsvc_list_directory`: all of the list, in order and once each, every entry
        in the form of its page, or an error after some prefix of it. */
    method ListDirectory(service: FileService, hasCallback: bool) returns (ok: bool, ghost told: nat)
      requires Shape() && service.Serves() && |service.uri| < WORD
      requires |service.uri| != 505 && |service.uri| != 506
      modifies this, service, req_buf, resp_buf, list_name
      ensures told <= |service.entries| && ToldSince(service, told, |old(service.forms)|, old(calls))
      ensures ok ==> told == |service.entries| && last_error == None
      ensures !ok ==> last_error in {InvalidArg, RequestTooLarge, Transport, Status, ShortResponse}
      // Each error has its own cause, so a service that refuses nothing and
      // sends no empty page before the end is listed to the end.
      ensures service.refused == (old(service.refused) || last_error == Transport)
      ensures service.rejected == (old(service.rejected) || last_error == Status)
      ensures service.stalled == (old(service.stalled) || last_error == ShortResponse)
      // What the caller may print: the status and length of the latest answer.
      ensures hasCallback ==> (last_status != 0 <==> last_error == Status)
      ensures ok || last_error == Status || last_error == ShortResponse ==>
                last_status == service.status && last_response_len == service.length
      ensures last_error == InvalidArg <==> !hasCallback
      ensures last_error == RequestTooLarge <==> hasCallback && |service.uri| > 506
    {
      hide EncodeRequest, ParseRequest, ToldIn, EntriesOk;
      told := 0;
      ToldNothing(service.entries, service.forms);
      var uri := service.uri;
      if !hasCallback {
        last_error := InvalidArg;
        return false, 0;
      }
      last_error, last_status, last_response_len := None, 0, 0;
      var start := 0;
      while true
        invariant start == told <= |service.entries| && last_error == None && last_status == 0
        invariant ToldSince(service, told, |old(service.forms)|, old(calls))
        invariant Shape()
        invariant service.refused == old(service.refused) && service.rejected == old(service.rejected)
        invariant service.stalled == old(service.stalled)
        decreases |service.entries| - start
      {
        if |uri| + OVERHEAD > IO_BUF_SIZE {
          last_error := RequestTooLarge;
          return false, told;
        }
        var off := BuildRequest(uri, start);
        RequestRoundTrip(uri, start);
        ghost var at, was := |service.forms|, service.forms;
        var error, count, more := Page(service, start, off);
        if error != None {
          last_error := error;
          return false, told;
        }
        assert service.forms[|old(service.forms)|..at] == was[|old(service.forms)|..];
        ToldOn(service.entries, told, count, service.forms, |old(service.forms)|, at);
        told := told + count;
        start := (start + count) % WORD;
        if !more {
          return true, told;
        }
        if count == 0 {
          last_error := ShortResponse;
          return false, told;
        }
      }
    }
  }
}

/** Bounded capture of a response stream: its tail for usage, its head for the log. */
module Capture {

  newtype byte = x: int | 0 <= x < 256

  type Bytes = seq<byte>

  function Concat(chunks: seq<Bytes>): Bytes {
    if chunks == [] then [] else Concat(chunks[..|chunks| - 1]) + chunks[|chunks| - 1]
  }

  /** The last `n` bytes, or all of them. */
  function Tail(s: Bytes, n: nat): Bytes {
    if |s| <= n then s else s[|s| - n..]
  }

  /** Keeping the tail as the stream goes by is keeping the tail of the whole stream. */
  lemma TailComposes(s: Bytes, p: Bytes, n: nat)
    ensures Tail(Tail(s, n) + p, n) == Tail(s + p, n)
  {
  }

  lemma TailOfWrite(s: Bytes, p: Bytes, n: nat)
    ensures Tail(s + p, n) ==
            if |p| >= n then [] + p[|p| - n..]
            else if |s| + |p| > n then s[|s| + |p| - n..] + p
            else s + p
  {
  }

  class TailBuffer {
    var data: array<byte>
    var len: nat
    const limit: nat

    ghost predicate Valid()
      reads this
    {
      len <= data.Length && len <= limit
    }

    ghost function Contents(): Bytes
      reads this, data
      requires Valid()
    {
      data[..len]
    }

    constructor (limit: nat)
      ensures Valid() && fresh(data) && this.limit == limit
      ensures Contents() == []
    {
      this.limit := limit;
      data := new byte[0];
      len := 0;
    }

    /** Keeps the last `limit` bytes of what it held followed by `p`, shifting them down in place. */
    method Write(p: Bytes) returns (n: nat)
      requires Valid()
      modifies this, data
      ensures Valid() && (data == old(data) || fresh(data))
      ensures Contents() == Tail(old(Contents()) + p, limit)
      ensures n == |p|
    {
      hide Tail;
      n := |p|;
      TailOfWrite(Contents(), p, limit);
      if |p| >= limit {
        len := 0;
        assert Contents() == [];
        Append(p[|p| - limit..]);
        return;
      }
      var overflow := len + |p| - limit;
      if overflow > 0 {
        ShiftDown(overflow);
      }
      Append(p);
    }

    /** Moves the bytes after the first `k` to the front; source and destination may overlap. */
    method ShiftDown(k: nat)
      requires Valid() && k <= len
      modifies this`len, data
      ensures Valid() && Contents() == old(Contents())[k..]
    {
      var i := 0;
      while i < len - k
        invariant 0 <= i <= len - k && len == old(len)
        invariant forall j :: 0 <= j < i ==> data[j] == old(data[j + k])
        invariant forall j :: i <= j < len ==> data[j] == old(data[j])
      {
        data[i] := data[i + k];
        i := i + 1;
      }
      len := len - k;
    }

    /** Adds `p` behind the bytes held, moving to a larger array when this one is too small. */
    method Append(p: Bytes)
      requires Valid() && len + |p| <= limit
      modifies this, data
      ensures Valid() && (data == old(data) || fresh(data))
      ensures Contents() == old(Contents()) + p
    {
      if len + |p| > data.Length {
        var larger := new byte[len + |p|];
        forall i | 0 <= i < len {
          larger[i] := data[i];
        }
        data := larger;
      }
      assert data[..len] == old(Contents());
      var room, i := data, 0;
      while i < |p|
        invariant 0 <= i <= |p| && len == old(len) && data == room
        invariant data[..len + i] == old(Contents()) + p[..i]
      {
        data[len + i] := p[i];
        assert data[..len + i + 1] == data[..len + i] + [p[i]];
        i := i + 1;
      }
      assert p[..i] == p;
      len := len + |p|;
    }
  }

  /** However the stream is cut into writes, the buffer ends up with its last `limit` bytes. */
  method CaptureTail(chunks: seq<Bytes>, limit: nat) returns (captured: Bytes)
    ensures captured == Tail(Concat(chunks), limit)
    ensures |captured| == if |Concat(chunks)| <= limit then |Concat(chunks)| else limit
    ensures captured == Concat(chunks)[|Concat(chunks)| - |captured|..]
  {
    var buffer := new TailBuffer(limit);
    var i := 0;
    while i < |chunks|
      invariant 0 <= i <= |chunks|
      invariant fresh(buffer) && fresh(buffer.data) && buffer.Valid() && buffer.limit == limit
      invariant buffer.Contents() == Tail(Concat(chunks[..i]), limit)
    {
      var _ := buffer.Write(chunks[i]);
      TailComposes(Concat(chunks[..i]), chunks[i], limit);
      assert chunks[..i + 1][..i] == chunks[..i];
      i := i + 1;
    }
    assert chunks[..i] == chunks;
    captured := buffer.data[..buffer.len];
  }

  // ---------------------------------------------------------------------------------------------
  // The log
  // ---------------------------------------------------------------------------------------------

  datatype Logged = Logged(bytes: Bytes, truncated: bool)

  const NOTHING := Logged([], false)

  /** One write: what still fits is kept, and a write that does not fit whole marks the log as cut. */
  function Written(l: Logged, p: Bytes, limit: int): Logged {
    if limit <= 0 || |l.bytes| >= limit then l.(truncated := true)
    else if |p| > limit - |l.bytes| then Logged(l.bytes + p[..limit - |l.bytes|], true)
    else l.(bytes := l.bytes + p)
  }

  function WriteAll(chunks: seq<Bytes>, limit: int): Logged {
    if chunks == [] then NOTHING else Written(WriteAll(chunks[..|chunks| - 1], limit), chunks[|chunks| - 1], limit)
  }

  class LogBodyBuffer {
    var bytes: Bytes
    var truncated: bool
    const limit: int

    function State(): Logged
      reads this
    {
      Logged(bytes, truncated)
    }

    constructor (limit: int)
      ensures State() == NOTHING && this.limit == limit
    {
      this.limit := limit;
      bytes, truncated := [], false;
    }

    method Write(p: Bytes) returns (n: nat)
      modifies this
      ensures State() == Written(old(State()), p, limit)
      ensures n == |p|
    {
      if limit <= 0 {
        truncated := true;
        return |p|;
      }
      var remaining := limit - |bytes|;
      if remaining <= 0 {
        truncated := true;
        return |p|;
      }
      if |p| > remaining {
        bytes := bytes + p[..remaining];
        truncated := true;
        return |p|;
      }
      bytes := bytes + p;
      return |p|;
    }
  }

  method BoundedLogBody(body: Bytes, limit: int) returns (kept: Bytes, truncated: bool)
    ensures Logged(kept, truncated) == WriteAll([body], limit)
    ensures limit > 0 ==> kept == body[..if |body| <= limit then |body| else limit] && truncated == (|body| > limit)
    ensures limit <= 0 ==> kept == [] && truncated
  {
    var buffer := new LogBodyBuffer(limit);
    var _ := buffer.Write(body);
    assert [body][..0] == [];
    kept, truncated := buffer.bytes, buffer.truncated;
  }

  /** An empty write that finds the log already full. It drops nothing, yet it is taken for a cut. */
  predicate EmptyWhenFull(chunks: seq<Bytes>, limit: int) {
    exists i :: 0 <= i < |chunks| && chunks[i] == [] && |Concat(chunks[..i])| >= limit
  }

  lemma EmptyWhenFullStep(chunks: seq<Bytes>, limit: int)
    requires chunks != []
    ensures var n := |chunks| - 1;
            EmptyWhenFull(chunks, limit) <==>
            EmptyWhenFull(chunks[..n], limit) || (chunks[n] == [] && |Concat(chunks[..n])| >= limit)
  {
    var n := |chunks| - 1;
    assert forall i :: 0 <= i < n ==> chunks[..n][i] == chunks[i] && chunks[..n][..i] == chunks[..i];
  }

  /**
   However the stream is cut into writes, a log with a positive limit holds its first `limit` bytes, and it is
   marked as cut exactly when bytes were dropped or an empty write found it full.
   */
  lemma {:induction false} LogLaw(chunks: seq<Bytes>, limit: int)
    requires limit > 0
    ensures WriteAll(chunks, limit).bytes == Concat(chunks)[..if |Concat(chunks)| <= limit then |Concat(chunks)| else limit]
    ensures WriteAll(chunks, limit).truncated <==> |Concat(chunks)| > limit || EmptyWhenFull(chunks, limit)
  {
    if chunks != [] {
      var n := |chunks| - 1;
      LogLaw(chunks[..n], limit);
      EmptyWhenFullStep(chunks, limit);
    }
  }

  /** Without a positive limit nothing is kept, and any write at all is marked. */
  lemma {:induction false} NoLimitKeepsNothing(chunks: seq<Bytes>, limit: int)
    requires limit <= 0
    ensures WriteAll(chunks, limit) == Logged([], chunks != [])
  {
    if chunks != [] {
      NoLimitKeepsNothing(chunks[..|chunks| - 1], limit);
    }
  }

  /** The chunked log and the one-shot log agree exactly when no empty write meets a log that is just full. */
  lemma LogAgreesWithOneShotIff(chunks: seq<Bytes>, limit: int)
    requires limit > 0
    ensures WriteAll(chunks, limit) == WriteAll([Concat(chunks)], limit) <==>
            !(|Concat(chunks)| == limit && EmptyWhenFull(chunks, limit))
  {
    var whole := Concat(chunks);
    LogLaw(chunks, limit);
    assert [whole][..0] == [];
    assert WriteAll([whole], limit) == Written(NOTHING, whole, limit);
    if EmptyWhenFull(chunks, limit) {
      var i :| 0 <= i < |chunks| && chunks[i] == [] && |Concat(chunks[..i])| >= limit;
      PrefixShorter(chunks, i);
    }
  }

  lemma {:induction false} PrefixShorter(chunks: seq<Bytes>, i: nat)
    requires i <= |chunks|
    ensures |Concat(chunks[..i])| <= |Concat(chunks)|
  {
    if i < |chunks| {
      PrefixShorter(chunks[..|chunks| - 1], i);
      assert chunks[..|chunks| - 1][..i] == chunks[..i];
    } else {
      assert chunks[..i] == chunks;
    }
  }

  /** Readers never write empty chunks, so for them the mark means that bytes were dropped. */
  lemma NonemptyWritesMarkCuts(chunks: seq<Bytes>, limit: int)
    requires limit > 0 && forall i :: 0 <= i < |chunks| ==> chunks[i] != []
    ensures WriteAll(chunks, limit) == WriteAll([Concat(chunks)], limit)
    ensures WriteAll(chunks, limit).truncated <==> |Concat(chunks)| > limit
  {
    LogLaw(chunks, limit);
    LogAgreesWithOneShotIff(chunks, limit);
  }
}

/**
  The seekable reader over ranged GETs (server/internal/blob/s3.go): whatever the server and the
  connections do, it behaves as a file held in memory, or reports an error.
 */
module S3Reader {
  import opened Base

  /** What the server answers a GET with, and how many of the bytes it announces the connection
      will deliver before it ends: the range asked for, the whole object, no object, an error. */
  datatype Response = Ranged(delivers: nat) | Whole(delivers: nat) | Missing | Refused

  datatype Ending = More | Eof | Broken

  /** The environment's part in one Read: the answer to a GET, if one is sent, and what the body
      then yields: at most `n` bytes, and how that read ends. */
  datatype Net = Net(response: Response, n: nat, ending: Ending)

  datatype Whence = Start | Current | End

  /** An open response body: the bytes the connection will still deliver. */
  datatype Body = Closed | Open(stream: Bytes)

  datatype Status = Fine | AtEnd | Failed

  function Min(a: nat, b: nat): nat {
    if a < b then a else b
  }

  /** One Read on a body: an io.Reader may return fewer bytes than asked for, and reports the end
      of the stream with its last bytes or after them. */
  function ReadBody(stream: Bytes, want: nat, net: Net): (Bytes, Bytes, Ending) {
    var n := Min(Min(want, net.n), |stream|);
    (stream[..n], stream[n..], if net.ending == Eof && n < |stream| then More else net.ending)
  }

  /** A stream that delivers the object from `at` on keeps doing so. */
  lemma ReadBodyFollows(content: Bytes, at: nat, stream: Bytes, want: nat, net: Net)
    requires at <= |content| && stream <= content[at..]
    ensures var (got, rest, _) := ReadBody(stream, want, net);
            && |got| <= want && at + |got| <= |content|
            && got == content[at..at + |got|] && rest <= content[at + |got|..]
            && (stream == content[at..] ==> rest == content[at + |got|..])
  {
    var (got, rest, _) := ReadBody(stream, want, net);
    assert stream == content[at..][..|stream|];
    assert content[at..at + |got|] == content[at..][..|got|];
    assert content[at + |got|..] == content[at..][|got|..];
  }

  /** A GET at `pos` is answered, with at least what stands before it. */
  predicate Answerable(content: Bytes, pos: nat, response: Response) {
    match response
    case Ranged(_) => true
    case Whole(delivers) => pos <= Min(delivers, |content|)
    case Missing => false
    case Refused => false
  }

  /** The network at its best: a range is served to its end, and every read yields something. */
  predicate Healthy(content: Bytes, net: Net) {
    net.response.Ranged? && net.response.delivers >= |content| && net.n > 0 && net.ending == More
  }

  predicate AllHealthy(content: Bytes, nets: seq<Net>) {
    forall net | net in nets :: Healthy(content, net)
  }

  /** How a read of a body ends, and that a network that yields something makes it yield something. */
  lemma ReadBodyEnds(stream: Bytes, want: nat, net: Net)
    ensures var (got, rest, ending) := ReadBody(stream, want, net);
            && (ending == Broken <==> net.ending == Broken) && (ending == Eof <==> net.ending == Eof && rest == [])
            && (net.n > 0 && want > 0 && stream != [] ==> got != []) && stream == got + rest
  {
  }

  // ---- the file in memory --------------------------------------------------------------------

  datatype Op = DoRead(want: nat, net: Net) | DoSeek(offset: int, whence: Whence)

  datatype Reply = Data(data: Bytes, status: Status) | Position(at: Option<nat>)

  /** What a file holding `content`, open at `pos`, may reply to one operation, and where it is
      then. A read may be short, or fail; the end is reported at the end only. */
  ghost predicate Answers(content: Bytes, pos: nat, op: Op, reply: Reply, next: nat) {
    match op
    case DoRead(want, _) =>
      && reply.Data? && next == pos + |reply.data| && |reply.data| <= want
      && (reply.data == [] || (next <= |content| && reply.data == content[pos..next]))
      && (reply.status == AtEnd ==> next >= |content|)
      && (pos >= |content| ==> reply == Data([], AtEnd))
    case DoSeek(offset, whence) =>
      var target := Target(content, pos, offset, whence);
      reply == Position(if target < 0 then None else Some(target)) && next == (if target < 0 then pos else target)
  }

  function Target(content: Bytes, pos: nat, offset: int, whence: Whence): int {
    (match whence case Start => 0 case Current => pos case End => |content|) + offset
  }

  ghost predicate Behaves(content: Bytes, pos: nat, ops: seq<Op>, replies: seq<Reply>, last: nat)
    decreases |ops|
  {
    if ops == [] then replies == [] && last == pos
    else exists next :: replies != [] && Answers(content, pos, ops[0], replies[0], next)
                        && Behaves(content, next, ops[1..], replies[1..], last)
  }

  lemma {:induction false} BehavesOn(content: Bytes, pos: nat, ops: seq<Op>, replies: seq<Reply>, mid: nat,
                                     op: Op, reply: Reply, next: nat)
    requires Behaves(content, pos, ops, replies, mid) && Answers(content, mid, op, reply, next)
    ensures Behaves(content, pos, ops + [op], replies + [reply], next)
    decreases |ops|
  {
    if ops == [] {
      assert [op][1..] == [] && [reply][1..] == [];
      assert Behaves(content, next, [op][1..], [reply][1..], next);
      assert ops + [op] == [op] && replies + [reply] == [reply];
    } else {
      var second :| Answers(content, pos, ops[0], replies[0], second) && Behaves(content, second, ops[1..], replies[1..], mid);
      BehavesOn(content, second, ops[1..], replies[1..], mid, op, reply, next);
      assert (ops + [op])[1..] == ops[1..] + [op] && (replies + [reply])[1..] == replies[1..] + [reply];
    }
  }

  lemma SliceGlue(content: Bytes, a: nat, b: nat, c: nat)
    requires a <= b <= c <= |content|
    ensures content[a..c] == content[a..b] + content[b..c]
  {
  }

  class Reader {
    /** The object; its size was learnt when the reader was opened. */
    const content: Bytes
    var pos: nat
    var body: Body
    var bodyAt: nat
    var closed: bool

    ghost predicate Valid()
      reads this
    {
      body.Open? ==> bodyAt <= |content| && body.stream <= content[bodyAt..]
    }

    /** The next read has a body to draw from. */
    ghost predicate Connects(response: Response)
      reads this
    {
      (body.Open? && bodyAt == pos) || Answerable(content, pos, response)
    }

    /** The body that the next read would use, if any, will deliver all of the rest. */
    ghost predicate Unspoilt()
      reads this
    {
      pos <= |content| && (body.Open? && bodyAt == pos ==> body.stream == content[pos..])
    }

    constructor (content: Bytes)
      ensures this.content == content && Valid() && Unspoilt() && pos == 0 && !closed
    {
      this.content, pos, body, bodyAt, closed := content, 0, Closed, 0, false;
    }

    /** Returned bytes are the object's bytes at the position, which advances past them. The end
        is reported at the end of the object only: a connection that ends early is a failure. */
    method Read(want: nat, net: Net) returns (data: Bytes, status: Status)
      requires Valid()
      modifies this
      ensures Valid() && closed == old(closed) && pos == old(pos) + |data| && |data| <= want
      ensures closed ==> data == [] && status == Failed
      ensures data == [] || (pos <= |content| && data == content[old(pos)..pos])
      ensures status == AtEnd ==> pos >= |content|
      ensures !closed && old(pos) >= |content| ==> data == [] && status == AtEnd
      ensures !closed && old(pos) < |content| ==>
                (status == Failed <==>
                   !old(Connects(net.response)) || net.ending == Broken || (net.ending == Eof && body == Open([]) && pos < |content|))
      ensures !closed && old(pos) < |content| && old(Unspoilt()) && Healthy(content, net) && want > 0 ==>
                data != [] && status == Fine && Unspoilt()
    {
      if closed { return [], Failed; }
      if pos >= |content| { return [], AtEnd; }
      if body.Closed? || bodyAt != pos {
        var reopened := Reopen(net.response);
        if !reopened { return [], Failed; }
      }
      assert old(Connects(net.response));
      ReadBodyFollows(content, bodyAt, body.stream, want, net);
      ReadBodyEnds(body.stream, want, net);
      assert old(Unspoilt()) && Healthy(content, net) ==> body.stream == content[pos..];
      var (got, rest, ending) := ReadBody(body.stream, want, net);
      body := Open(rest);
      pos := pos + |got|;
      bodyAt := bodyAt + |got|;
      data := got;
      if ending == Eof && pos < |content| {
        status := Failed;
      } else {
        status := match ending case More => Fine case Eof => AtEnd case Broken => Failed;
      }
    }

    /** A GET at the position. A server that ignores the range answers with the whole object, of
        which the part before the position is thrown away. */
    method Reopen(response: Response) returns (ok: bool)
      requires Valid() && pos < |content|
      modifies `body, `bodyAt
      ensures Valid() && (ok ==> body.Open? && bodyAt == pos)
      ensures ok <==> Answerable(content, pos, response)
      ensures response.Ranged? && response.delivers >= |content| ==> body == Open(content[pos..])
    {
      body := Closed;
      match response {
        case Missing => return false;
        case Refused => return false;
        case Ranged(delivers) =>
          var range := content[pos..];
          body := Open(range[..Min(delivers, |range|)]);
        case Whole(delivers) =>
          var stream := content[..Min(delivers, |content|)];
          if pos > 0 {
            if |stream| < pos { return false; }
            stream := stream[pos..];
          }
          assert stream <= content[pos..];
          body := Open(stream);
      }
      bodyAt := pos;
      ok := true;
    }

    /** Seeking moves the position, past the end too; a negative target changes nothing. */
    method Seek(offset: int, whence: Whence) returns (r: Option<nat>)
      requires Valid()
      modifies `pos
      ensures Valid()
      ensures var target := Target(content, old(pos), offset, whence);
              if closed || target < 0 then r == None && pos == old(pos) else r == Some(pos) && pos == target
    {
      if closed { return None; }
      var abs := offset;
      match whence {
        case Start =>
        case Current => abs := pos + offset;
        case End => abs := |content| + offset;
      }
      if abs < 0 { return None; }
      pos := abs;
      r := Some(abs);
    }

    method Close()
      requires Valid()
      modifies this
      ensures Valid() && closed
    {
      closed := true;
      body := Closed;
    }

    /** io.Copy: reads of any size, against any behaviour of the network, until the end or an
        error; None when `nets` runs out first. A copy that succeeds is complete. */
    method Copy(want: nat, nets: seq<Net>) returns (out: Bytes, result: Option<bool>)
      requires Valid() && !closed && pos <= |content|
      modifies this
      ensures Valid() && !closed && old(pos) <= pos <= |content| && out == content[old(pos)..pos]
      ensures result == Some(true) ==> out == content[old(pos)..]
      ensures old(Unspoilt()) && AllHealthy(content, nets) && want > 0 && |nets| > |content| - old(pos) ==> result == Some(true)
    {
      out, result := [], None;
      ghost var best := Unspoilt() && want > 0 && AllHealthy(content, nets);
      for i := 0 to |nets|
        invariant Valid() && !closed && old(pos) <= pos <= |content| && out == content[old(pos)..pos]
        invariant best ==> Unspoilt() && pos >= old(pos) + i
      {
        assert nets[i] in nets;
        var at := pos;
        var data, status := Read(want, nets[i]);
        SliceGlue(content, old(pos), at, pos);
        out := out + data;
        if status == AtEnd { return out, Some(true); }
        if status == Failed { return out, Some(false); }
      }
    }

    /** io.Copy through io.LimitReader: stops after `limit` bytes, whatever the network would do
        behind them. A copy that succeeds has that much, or all there is. */
    method CopyLimited(limit: nat, want: nat, nets: seq<Net>) returns (out: Bytes, result: Option<bool>)
      requires Valid() && !closed && pos <= |content|
      modifies this
      ensures Valid() && !closed && old(pos) <= pos <= |content| && out == content[old(pos)..pos] && |out| <= limit
      ensures result == Some(true) ==> out == content[old(pos)..Min(old(pos) + limit, |content|)]
      ensures limit == 0 ==> result == Some(true)
      ensures old(Unspoilt()) && AllHealthy(content, nets) && want > 0 && |nets| > Min(limit, |content| - old(pos)) ==>
                result == Some(true)
    {
      out := [];
      ghost var best := Unspoilt() && want > 0 && AllHealthy(content, nets);
      for i := 0 to |nets|
        invariant Valid() && !closed && old(pos) <= pos <= |content| && out == content[old(pos)..pos] && |out| <= limit
        invariant best ==> Unspoilt() && |out| >= i
      {
        assert nets[i] in nets;
        if |out| == limit { return out, Some(true); }
        var at := pos;
        var data, status := Read(Min(want, limit - |out|), nets[i]);
        SliceGlue(content, old(pos), at, pos);
        out := out + data;
        if status == AtEnd { return out, Some(true); }
        if status == Failed { return out, Some(false); }
      }
      result := if |out| == limit then Some(true) else None;
    }

    /** Any sequence of reads and seeks. */
    method Session(ops: seq<Op>) returns (replies: seq<Reply>)
      requires Valid() && !closed
      modifies this
      ensures Valid() && !closed && Behaves(content, old(pos), ops, replies, pos)
    {
      replies := [];
      for i := 0 to |ops|
        invariant Valid() && !closed && Behaves(content, old(pos), ops[..i], replies, pos)
      {
        ghost var mid := pos;
        var reply;
        match ops[i] {
          case DoRead(want, net) =>
            var data, status := Read(want, net);
            reply := Data(data, status);
          case DoSeek(offset, whence) =>
            var at := Seek(offset, whence);
            reply := Position(at);
        }
        BehavesOn(content, old(pos), ops[..i], replies, mid, ops[i], reply, pos);
        assert ops[..i + 1] == ops[..i] + [ops[i]];
        replies := replies + [reply];
      }
      assert ops[..|ops|] == ops;
    }
  }
}

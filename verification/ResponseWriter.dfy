/** Writing a response over a socket that may take part of it, be interrupted, or fail. */
module ResponseWriter {

  type Positive = n: nat | n >= 1 witness 1

  /** One call of write: a positive count of bytes the socket is ready to take, or no progress
    * with errno EINTR, or no progress with any other errno. */
  datatype Attempt = Takes(n: Positive) | Interrupted | Fails

  function Min(a: nat, b: nat): nat { if a < b then a else b }

  const SIZE_MAX: nat := 0xffff_ffff_ffff_ffff

  /** A connection: what the peer will receive, and how the coming calls of write will go.
    * Once `attempts` is used up, write takes everything it is given. */
  class Connection {
    var delivered: string
    var attempts: seq<Attempt>

    method Write(bytes: string) returns (nwritten: int, eintr: bool)
      requires bytes != []
      modifies this
      ensures old(attempts) == [] ==>
        nwritten == |bytes| && attempts == [] && delivered == old(delivered) + bytes
      ensures old(attempts) != [] ==> attempts == old(attempts)[1..]
      ensures old(attempts) != [] && old(attempts)[0].Takes? ==>
        && nwritten == Min(old(attempts)[0].n, |bytes|)
        && delivered == old(delivered) + bytes[..nwritten]
      ensures old(attempts) != [] && !old(attempts)[0].Takes? ==>
        nwritten == -1 && delivered == old(delivered) && eintr == old(attempts)[0].Interrupted?
    {
      nwritten, eintr := |bytes|, false;
      if attempts != [] {
        var attempt := attempts[0];
        attempts := attempts[1..];
        match attempt {
          case Takes(n) => nwritten := Min(n, |bytes|);
          case Interrupted => nwritten, eintr := -1, true;
          case Fails => nwritten := -1;
        }
      }
      if nwritten > 0 {
        delivered := delivered + bytes[..nwritten];
      }
    }
  }

  /** Outcome of writing `n` bytes: how many are delivered, whether all, and what is left. */
  datatype Delivery = Delivery(count: nat, complete: bool, rest: seq<Attempt>)

  function Deliver(n: nat, attempts: seq<Attempt>): Delivery
    decreases |attempts|
  {
    if n == 0 then Delivery(0, true, attempts)
    else if attempts == [] then Delivery(n, true, [])
    else
      match attempts[0]
      case Takes(k) =>
        var d := Deliver(n - Min(k, n), attempts[1..]);
        d.(count := Min(k, n) + d.count)
      case Interrupted => Deliver(n, attempts[1..])
      case Fails => Delivery(0, false, attempts[1..])
  }

  method ResponseWrite(conn: Connection, usrbuf: string, n: nat) returns (ret: nat)
    requires n <= |usrbuf| && n < SIZE_MAX
    modifies conn
    ensures var d := Deliver(n, old(conn.attempts));
      && conn.delivered == old(conn.delivered) + usrbuf[..Min(d.count, n)]
      && conn.attempts == d.rest && ret == if d.complete then n else SIZE_MAX
  {
    var nleft: nat, bufp: nat := n, 0;
    ghost var goal := Deliver(n, conn.attempts);
    CountBound(n, conn.attempts);
    while nleft > 0
      invariant nleft + bufp == n
      invariant conn.delivered == old(conn.delivered) + usrbuf[..bufp]
      invariant var d := Deliver(nleft, conn.attempts);
        goal == Delivery(bufp + d.count, d.complete, d.rest)
      decreases nleft, |conn.attempts|
    {
      var nwritten, eintr := conn.Write(usrbuf[bufp..bufp + nleft]);
      if nwritten <= 0 {
        if eintr {
          nwritten := 0;
        } else {
          return SIZE_MAX;
        }
      }
      TakeMore(usrbuf, bufp, nleft, nwritten);
      nleft := nleft - nwritten;
      bufp := bufp + nwritten;
    }
    return n;
  }

  lemma TakeMore(s: string, from: nat, length: nat, k: nat)
    requires k <= length && from + length <= |s|
    ensures s[..from] + s[from..from + length][..k] == s[..from + k]
  {
  }

  lemma {:induction false} CountBound(n: nat, attempts: seq<Attempt>)
    ensures Deliver(n, attempts).count <= n
    ensures Deliver(n, attempts).complete <==> Deliver(n, attempts).count == n
    decreases |attempts|
  {
    if n == 0 || attempts == [] {
    } else {
      match attempts[0]
      case Takes(k) => CountBound(n - Min(k, n), attempts[1..]);
      case Interrupted => CountBound(n, attempts[1..]);
      case Fails =>
    }
  }

  /** What the socket is ready to take before it fails. */
  function Capacity(attempts: seq<Attempt>): nat {
    if attempts == [] then 0
    else
      match attempts[0]
      case Takes(k) => k + Capacity(attempts[1..])
      case Interrupted => Capacity(attempts[1..])
      case Fails => 0
  }

  /** However the writes are split and interrupted, all of the buffer is delivered unless the
    * socket fails first, and then exactly what it took before. */
  lemma {:induction false} DeliveredIs(n: nat, attempts: seq<Attempt>)
    ensures Deliver(n, attempts).count ==
      if Fails in attempts then Min(n, Capacity(attempts)) else n
    ensures Deliver(n, attempts).complete <==> (Fails in attempts ==> Capacity(attempts) >= n)
    decreases |attempts|
  {
    if n == 0 || attempts == [] {
    } else {
      match attempts[0]
      case Takes(k) => DeliveredIs(n - Min(k, n), attempts[1..]);
      case Interrupted => DeliveredIs(n, attempts[1..]);
      case Fails =>
    }
  }

  /** What is left once the socket has failed for the first time. */
  function AfterFail(attempts: seq<Attempt>): seq<Attempt> {
    if attempts == [] then []
    else if attempts[0] == Fails then attempts[1..]
    else AfterFail(attempts[1..])
  }

  lemma {:induction false} RestIs(n: nat, attempts: seq<Attempt>)
    requires !Deliver(n, attempts).complete
    ensures Deliver(n, attempts).rest == AfterFail(attempts)
    decreases |attempts|
  {
    if attempts == [] || attempts[0] == Fails {
    } else {
      match attempts[0]
      case Takes(k) => RestIs(n - Min(k, n), attempts[1..]);
      case Interrupted => RestIs(n, attempts[1..]);
    }
  }

  // ---- Header and body ----

  /** The two writes of serve_static; a failed header is reported and the body sent all the same. */
  method ServeStatic(conn: Connection, header: string, body: string)
    requires |header| < SIZE_MAX && |body| < SIZE_MAX
    modifies conn
    ensures conn.delivered == old(conn.delivered) + Sent(header, body, old(conn.attempts))
  {
    CountBound(|header|, conn.attempts);
    var ret := ResponseWrite(conn, header, |header|);
    CountBound(|body|, conn.attempts);
    ret := ResponseWrite(conn, body, |body|);
  }

  function Sent(header: string, body: string, attempts: seq<Attempt>): string {
    var first := Deliver(|header|, attempts);
    var second := Deliver(|body|, first.rest);
    header[..Min(first.count, |header|)] + body[..Min(second.count, |body|)]
  }

  /** The peer gets the header followed by the whole body iff both writes complete. */
  lemma SentWholeIff(header: string, body: string, attempts: seq<Attempt>)
    ensures Sent(header, body, attempts) == header + body <==>
      Deliver(|header|, attempts).complete
      && Deliver(|body|, Deliver(|header|, attempts).rest).complete
  {
    CountBound(|header|, attempts);
    CountBound(|body|, Deliver(|header|, attempts).rest);
  }

  /** A header cut short and followed by any of the body is not a prefix of the response. */
  lemma GapSeen(h: nat, n: nat, attempts: seq<Attempt>) returns (header: string, body: string)
    requires !Deliver(h, attempts).complete && Deliver(n, Deliver(h, attempts).rest).count > 0
    ensures |header| == h && |body| == n && !(Sent(header, body, attempts) <= header + body)
  {
    var k := Deliver(h, attempts).count;
    CountBound(h, attempts);
    CountBound(n, Deliver(h, attempts).rest);
    header, body := seq(h, _ => 'h'), seq(n, _ => 'b');
    assert Sent(header, body, attempts)[k] == 'b' && (header + body)[k] == 'h';
  }

  lemma NoGap(header: string, body: string, attempts: seq<Attempt>)
    requires var d := Deliver(|header|, attempts);
      d.complete || Deliver(|body|, d.rest).count == 0
    ensures Sent(header, body, attempts) <= header + body
  {
    CountBound(|header|, attempts);
    CountBound(|body|, Deliver(|header|, attempts).rest);
  }

  /** The socket takes all `h` bytes of the header before it fails, or takes none of the `n` bytes
    * of the body after that. */
  predicate Seamless(h: nat, n: nat, attempts: seq<Attempt>) {
    || Fails !in attempts || Capacity(attempts) >= h || n == 0
    || (Fails in AfterFail(attempts) && Capacity(AfterFail(attempts)) == 0)
  }

  /** What is sent is a prefix of the response, for every response of these lengths, iff the socket
    * takes the whole header before it fails or fails again before it takes any of the body. */
  lemma SentPrefixIff(h: nat, n: nat, attempts: seq<Attempt>)
    ensures (forall header: string, body: string :: |header| == h && |body| == n ==>
              Sent(header, body, attempts) <= header + body)
       <==> Seamless(h, n, attempts)
  {
    hide Deliver, Sent, Capacity, AfterFail;
    var first := Deliver(h, attempts);
    DeliveredIs(h, attempts);
    DeliveredIs(n, first.rest);
    if !first.complete {
      RestIs(h, attempts);
    }
    if Seamless(h, n, attempts) {
      forall header: string, body: string | |header| == h && |body| == n
        ensures Sent(header, body, attempts) <= header + body
      {
        NoGap(header, body, attempts);
      }
    } else {
      var header, body := GapSeen(h, n, attempts);
    }
  }

  /** A socket that fails at once and then recovers: the peer gets the body with no header. */
  lemma BodyAlone(header: string, body: string)
    requires header != []
    ensures Sent(header, body, [Fails]) == body
    ensures header == "h" && body == "b" ==> !(Sent(header, body, [Fails]) <= header + body)
  {
    assert [Fails][1..] == [];
    assert body[..|body|] == body;
    if header == "h" && body == "b" {
      assert "b"[0] != ("h" + "b")[0];
    }
  }
}

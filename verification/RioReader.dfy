/**
 * The buffered reader of the server: a chunked buffer in front of a descriptor whose `read` may
 * return short pieces, be interrupted, or fail.
 */
module RioReader {

  const RIO_BUFSIZE := 8192

  /** What the kernel does with one call of `read`: interrupt it, fail, or hand over at most `n` bytes. */
  datatype Answer = Interrupted | Failed | Piece(n: nat)

  /** A descriptor: the bytes not yet read, the kernel's future answers, and the failures so far. */
  class Descriptor {
    var rest: seq<char>
    var script: seq<Answer>
    ghost var failures: nat

    constructor (stream: seq<char>, script: seq<Answer>)
      ensures rest == stream && this.script == script && failures == 0
    {
      rest := stream;
      this.script := script;
      failures := 0;
    }

    /**
     * One call of `read`: -1 when interrupted or failed, as `intr` tells, 0 only at the end of the
     * stream, otherwise some positive number of the next bytes.
     */
    method Read(buf: array<char>) returns (n: int, intr: bool)
      requires buf.Length > 0
      modifies this, buf
      ensures -1 <= n <= buf.Length && |script| <= |old(script)|
      ensures n == -1 ==> rest == old(rest) && buf[..] == old(buf[..]) && |script| < |old(script)|
      ensures failures == old(failures) + (if n == -1 && !intr then 1 else 0)
      ensures n >= 0 ==> n <= |old(rest)| && buf[..n] == old(rest)[..n] && rest == old(rest)[n..]
      ensures n == 0 <==> old(rest) == [] && n != -1
    {
      intr := false;
      var size := buf.Length;
      if script != [] {
        var answer := script[0];
        script := script[1..];
        if answer.Interrupted? {
          return -1, true;
        }
        if answer.Failed? {
          failures := failures + 1;
          return -1, false;
        }
        if answer.n < size {
          size := if answer.n == 0 then 1 else answer.n;
        }
      }
      n := if |rest| < size then |rest| else size;
      forall i | 0 <= i < n {
        buf[i] := rest[i];
      }
      rest := rest[n..];
    }
  }

  /** The line that one call delivers: up to a newline, or `room` bytes, or the end of stream. */
  function Line(u: seq<char>, room: nat): (s: seq<char>)
    ensures s <= u && |s| <= room
  {
    if room == 0 || u == [] then []
    else if u[0] == '\n' then [u[0]]
    else [u[0]] + Line(u[1..], room - 1)
  }

  predicate EndsLine(s: seq<char>) {
    s != [] && s[|s| - 1] == '\n'
  }

  /** `Line` stops at the first newline, when the room is used up, or at the end, and nowhere else. */
  lemma {:induction false} LineStops(u: seq<char>, room: nat)
    ensures var s := Line(u, room);
            && (forall i :: 0 <= i < |s| - 1 ==> s[i] != '\n')
            && (EndsLine(s) || |s| == room || s == u)
    decreases room
  {
    if room > 0 && u != [] && u[0] != '\n' {
      LineStops(u[1..], room - 1);
      LineCons(u[0], Line(u[1..], room - 1));
      assert u == [u[0]] + u[1..];
    }
  }

  lemma LineCons(c: char, r: seq<char>)
    requires c != '\n' && forall i :: 0 <= i < |r| - 1 ==> r[i] != '\n'
    ensures var s := [c] + r; (forall i :: 0 <= i < |s| - 1 ==> s[i] != '\n') && (EndsLine(s) <==> EndsLine(r))
  {
    var s := [c] + r;
    forall i | 0 <= i < |s| - 1
      ensures s[i] != '\n'
    {
      assert i > 0 ==> s[i] == r[i - 1];
    }
  }

  /** Those properties leave only one possible line, so no buffering can change it. */
  lemma LineUnique(u: seq<char>, room: nat, s: seq<char>)
    requires s <= u && |s| <= room && (forall i :: 0 <= i < |s| - 1 ==> s[i] != '\n')
    requires EndsLine(s) || |s| == room || s == u
    ensures s == Line(u, room)
  {
    LineStops(u, room);
    var l := Line(u, room);
    assert forall i :: 0 <= i < |s| && i < |l| ==> s[i] == u[i] == l[i];
    assert |s| == |l|;
  }

  method MemCpy(dst: array<char>, at: nat, src: array<char>, from: nat, n: nat)
    requires dst != src && at + n <= dst.Length && from + n <= src.Length
    modifies dst
    ensures dst[at..at + n] == src[from..from + n]
    ensures forall i :: 0 <= i < dst.Length && !(at <= i < at + n) ==> dst[i] == old(dst[i])
  {
    forall i | 0 <= i < n {
      dst[at + i] := src[from + i];
    }
  }

  lemma FrontOf(b: seq<char>, rest: seq<char>, k: nat)
    requires k <= |b|
    ensures (b + rest)[..k] == b[..k] && (b + rest)[k..] == b[k..] + rest
  {}

  class Rio {
    const fd: Descriptor
    const buf: array<char>
    var cnt: int
    var ptr: nat

    ghost predicate Valid()
      reads this
    {
      && buf.Length == RIO_BUFSIZE && ptr <= buf.Length
      && (cnt > 0 ==> ptr + cnt <= buf.Length)
    }

    /** The bytes the reader still has to deliver, buffered ones first. */
    ghost function Unread(): seq<char>
      reads this, fd, buf
      requires Valid()
    {
      (if cnt > 0 then buf[ptr..ptr + cnt] else []) + fd.rest
    }

    /** `rio_readinitb` */
    constructor (fd: Descriptor)
      ensures Valid() && this.fd == fd && fresh(buf) && Unread() == fd.rest
    {
      this.fd := fd;
      buf := new char[RIO_BUFSIZE];
      cnt, ptr := 0, 0;
    }

    /** The refill loop of `rio_read`: no byte is lost, and it gives up at a failure or at the end. */
    method Refill() returns (ok: bool)
      requires Valid()
      modifies this, fd, buf
      ensures Valid() && Unread() == old(Unread())
      ensures fd.failures == old(fd.failures) + (if ok then 0 else 1)
      ensures ok ==> 0 <= cnt && (cnt == 0 <==> old(Unread()) == [])
    {
      ghost var u := Unread();
      while cnt <= 0
        invariant Valid() && Unread() == u && fd.failures == old(fd.failures)
        decreases |fd.script|, if cnt <= 0 then 1 else 0
      {
        var intr;
        cnt, intr := fd.Read(buf);
        if cnt < 0 {
          if !intr {
            return false;
          }
        } else if cnt == 0 {
          return true;
        } else {
          ptr := 0;
        }
      }
      ok := true;
    }

    /** The last four lines of `rio_read`: copies `k` buffered bytes out and moves the pointer. */
    method TakeBuffered(usr: array<char>, at: nat, k: nat)
      requires Valid() && k <= cnt && at + k <= usr.Length && usr != buf
      modifies this, usr
      ensures Valid() && k <= |old(Unread())| && Unread() == old(Unread())[k..]
      ensures usr[at..at + k] == old(Unread())[..k]
      ensures forall i :: 0 <= i < usr.Length && !(at <= i < at + k) ==> usr[i] == old(usr[i])
    {
      ghost var b := buf[ptr..ptr + cnt];
      FrontOf(b, fd.rest, k);
      assert Unread() == b + fd.rest;
      assert b[..k] == buf[ptr..ptr + k];
      MemCpy(usr, at, buf, ptr, k);
      ptr := ptr + k;
      cnt := cnt - k;
      assert buf[ptr..ptr + cnt] == b[k..];
      assert Unread() == b[k..] + fd.rest;
    }

    /**
     * `rio_read`: refills an empty buffer, then delivers what is there, up to `n` bytes.  The result
     * is 0 at the end of the stream, and -1, with nothing consumed, when `read` fails.
     */
    method Fetch(usr: array<char>, at: nat, n: nat) returns (k: int)
      requires Valid() && n > 0 && at + n <= usr.Length && usr != buf
      modifies this, fd, buf, usr
      ensures Valid() && -1 <= k <= n && k <= |old(Unread())|
      ensures fd.failures == old(fd.failures) + (if k == -1 then 1 else 0)
      ensures k == -1 ==> Unread() == old(Unread()) && usr[..] == old(usr[..])
      ensures k != -1 ==> (k == 0 <==> old(Unread()) == [])
      ensures k != -1 ==> usr[at..at + k] == old(Unread())[..k] && Unread() == old(Unread())[k..]
      ensures k != -1 ==> forall i :: 0 <= i < usr.Length && !(at <= i < at + k) ==> usr[i] == old(usr[i])
    {
      hide Unread;
      var ok := Refill();
      if !ok {
        return -1;
      }
      k := if cnt < n then cnt else n;
      TakeBuffered(usr, at, k);
    }

    /**
     * `rio_readnb`: the next `n` bytes, or all that is left.  The result is -1 when `read` fails;
     * `taken` bytes were then stored and consumed.
     */
    method ReadNb(usr: array<char>, n: nat) returns (got: int, ghost taken: nat)
      requires Valid() && n <= usr.Length && usr != buf
      modifies this, fd, buf, usr
      ensures Valid() && fd.failures == old(fd.failures) + (if got == -1 then 1 else 0)
      ensures got == -1 || got == taken == (if n <= |old(Unread())| then n else |old(Unread())|)
      ensures taken <= n && taken <= |old(Unread())|
      ensures usr[..taken] == old(Unread())[..taken] && Unread() == old(Unread())[taken..]
      ensures forall i :: taken <= i < usr.Length ==> usr[i] == old(usr[i])
    {
      hide Unread, Valid;
      ghost var u := Unread();
      var nleft := n;
      got, taken := 0, 0;
      while nleft > 0
        invariant Valid() && nleft >= 0 && got + nleft == n && got == taken <= |u| && fd.failures == old(fd.failures)
        invariant forall i {:trigger usr[i]} :: got <= i < usr.Length ==> usr[i] == old(usr[i])
        invariant usr[..got] == u[..got] && Unread() == u[got..]
      {
        var nread := Fetch(usr, got, nleft);
        if nread < 0 {
          return -1, taken;
        } else if nread == 0 {
          break;
        }
        assert usr[..got + nread] == usr[..got] + usr[got..got + nread];
        nleft := nleft - nread;
        got, taken := got + nread, taken + nread;
      }
    }

    /**
     * `rio_readlineb`: stores one line and a terminator.  The result is 0 at the end of the stream,
     * the number of bytes stored if they end in a newline, and one more otherwise.  It is -1 when
     * `read` fails; `taken` bytes of the line were then stored and consumed.
     */
    method ReadLine(usr: array<char>, maxlen: nat) returns (n: int, ghost taken: nat)
      requires Valid() && maxlen <= usr.Length && usr.Length > 0 && usr != buf
      modifies this, fd, buf, usr
      ensures Valid() && fd.failures == old(fd.failures) + (if n == -1 then 1 else 0)
      ensures taken <= |old(Unread())| && Unread() == old(Unread())[taken..]
      ensures n == -1 ==>
                taken <= usr.Length && usr[..taken] == old(Unread())[..taken] && '\n' !in old(Unread())[..taken]
      ensures n != -1 ==>
                var line := Line(old(Unread()), if maxlen == 0 then 0 else maxlen - 1);
                && taken == |line|
                && n == (if maxlen > 1 && line == [] then 0 else if EndsLine(line) then |line| else |line| + 1)
                && (n != 0 ==> |line| < usr.Length && usr[..|line|] == line && usr[|line|] == '\0')
      ensures forall i :: taken <= i < usr.Length && (i > taken || n <= 0) ==> usr[i] == old(usr[i])
    {
      hide Unread, Valid, Line;
      ghost var u := Unread();
      ghost var room := if maxlen == 0 then 0 else maxlen - 1;
      var c := new char[1];
      n := 1;
      var at := 0;
      while n < maxlen
        invariant Valid() && 1 <= n && at == n - 1 && at <= room && at <= |u| && fd.failures == old(fd.failures)
        invariant forall i :: at <= i < usr.Length ==> usr[i] == old(usr[i])
        invariant usr[..at] == u[..at] && Unread() == u[at..]
        invariant forall i :: 0 <= i < at ==> u[i] != '\n'
      {
        var rc := Fetch(c, 0, 1);
        if rc == 1 {
          assert c[0] == c[0..1][0] == u[at];
          assert u[at..][1..] == u[at + 1..];
          usr[at] := c[0];
          at := at + 1;
          if c[0] == '\n' {
            break;
          }
        } else if rc == 0 {
          assert u[at..] == [];
          if n == 1 {
            LineUnique(u, room, u[..at]);
            return 0, 0;
          }
          break;
        } else {
          return -1, at;
        }
        n := n + 1;
      }
      LineUnique(u, room, u[..at]);
      usr[at] := '\0';
      taken := at;
    }
  }

  // ---------- Any mix of calls ----------

  datatype Call = GetLine(maxlen: nat) | GetBytes(n: nat)

  /** What a sequence of calls delivers from the stream `u`, whatever the kernel's chunks are. */
  function Delivered(u: seq<char>, calls: seq<Call>): seq<seq<char>>
    decreases |calls|
  {
    if calls == [] then []
    else
      var d := Delivery(u, calls[0]);
      [d] + Delivered(u[|d|..], calls[1..])
  }

  function Delivery(u: seq<char>, call: Call): (d: seq<char>)
    ensures d <= u
  {
    match call
    case GetLine(maxlen) => Line(u, if maxlen == 0 then 0 else maxlen - 1)
    case GetBytes(n) => if n <= |u| then u[..n] else u
  }

  /** A block call asks for exactly `n` bytes, a line call for exactly one line. */
  lemma DeliveryIs(u: seq<char>, call: Call)
    ensures var d := Delivery(u, call);
            && d <= u
            && (call.GetBytes? ==> |d| == call.n || (|d| < call.n && d == u))
            && (call.GetLine? ==>
                  && (forall i :: 0 <= i < |d| - 1 ==> d[i] != '\n')
                  && (|d| < call.maxlen || d == [])
                  && (EndsLine(d) || |d| == call.maxlen - 1 || (call.maxlen == 0 && d == []) || d == u))
  {
    match call
    case GetLine(maxlen) => LineStops(u, if maxlen == 0 then 0 else maxlen - 1);
    case GetBytes(_) =>
  }

  /** `Delivered` serves the calls one after the other, each from where the one before stopped. */
  lemma {:induction false} DeliveredEach(u: seq<char>, calls: seq<Call>, i: nat)
    requires i < |calls|
    ensures |Delivered(u, calls)| == |calls|
    ensures var d := Delivered(u, calls);
            |Concat(d[..i])| <= |u| && d[i] == Delivery(u[|Concat(d[..i])|..], calls[i])
    decreases |calls|
  {
    hide Delivery;
    var d, first := Delivered(u, calls), Delivery(u, calls[0]);
    var rest := u[|first|..];
    assert d[1..] == Delivered(rest, calls[1..]);
    if i > 0 {
      DeliveredEach(rest, calls[1..], i - 1);
      var before := d[1..][..i - 1];
      assert d[..i] == [first] + before && d[..i][1..] == before;
      assert rest[|Concat(before)|..] == u[|Concat(d[..i])|..];
    } else {
      DeliveredLength(rest, calls[1..]);
      assert d[..0] == [] && u[0..] == u;
    }
  }

  lemma {:induction false} DeliveredLength(u: seq<char>, calls: seq<Call>)
    ensures |Delivered(u, calls)| == |calls|
    decreases |calls|
  {
    if calls != [] {
      DeliveredLength(u[|Delivery(u, calls[0])|..], calls[1..]);
    }
  }

  function Concat(pieces: seq<seq<char>>): seq<char> {
    if pieces == [] then [] else pieces[0] + Concat(pieces[1..])
  }

  /** The deliveries put together are a prefix of the stream. */
  lemma {:induction false} DeliveredIsPrefix(u: seq<char>, calls: seq<Call>)
    ensures Concat(Delivered(u, calls)) <= u
    decreases |calls|
  {
    if calls != [] {
      var d := Delivery(u, calls[0]);
      DeliveredIsPrefix(u[|d|..], calls[1..]);
      assert Delivered(u, calls)[1..] == Delivered(u[|d|..], calls[1..]);
      assert u == d + u[|d|..];
    }
  }

  predicate Fits(call: Call, size: nat) {
    if call.GetLine? then call.maxlen <= size else call.n <= size
  }

  /** One call, with the received bytes taken out of the caller's buffer as its result says. */
  method Serve(rio: Rio, usr: array<char>, call: Call) returns (ok: bool, piece: seq<char>)
    requires rio.Valid() && usr != rio.buf && usr.Length > 0 && Fits(call, usr.Length)
    modifies rio, rio.fd, rio.buf, usr
    ensures rio.Valid() && rio.fd.failures == old(rio.fd.failures) + (if ok then 0 else 1)
    ensures ok ==> piece == Delivery(old(rio.Unread()), call) && rio.Unread() == old(rio.Unread())[|piece|..]
    ensures !ok ==> exists k :: 0 <= k <= |old(rio.Unread())| && rio.Unread() == old(rio.Unread())[k..]
  {
    hide Rio.Unread, Rio.Valid, Line;
    match call {
      case GetLine(maxlen) =>
        ghost var line := Line(rio.Unread(), if maxlen == 0 then 0 else maxlen - 1);
        var n, _ := rio.ReadLine(usr, maxlen);
        if n < 0 {
          return false, [];
        }
        if n > 0 {
          assert EndsLine(line) ==> usr[n - 1] == usr[..|line|][n - 1];
          assert line == usr[..|line|];
        }
        piece := usr[..if n > 0 && usr[n - 1] != '\n' then n - 1 else n];
      case GetBytes(n) =>
        var got, _ := rio.ReadNb(usr, n);
        if got < 0 {
          return false, [];
        }
        piece := usr[..got];
    }
    ok := true;
  }

  lemma ServedNone(u: seq<char>, calls: seq<Call>)
    ensures Delivered(u, calls[..0]) == [] && Concat([]) == []
  {}

  lemma ServedOne(u: seq<char>, calls: seq<Call>, piece: seq<char>, rest: seq<seq<char>>)
    requires calls != [] && piece == Delivery(u, calls[0]) && |rest| < |calls|
    requires rest == Delivered(u[|piece|..], calls[1..][..|rest|]) && Concat(rest) <= u[|piece|..]
    ensures var got := [piece] + rest;
            && got == Delivered(u, calls[..|got|]) && Concat(got) == piece + Concat(rest) && Concat(got) <= u
  {
    hide Delivery;
    var got := [piece] + rest;
    assert got[1..] == rest && calls[..|got|][1..] == calls[1..][..|rest|];
    assert u == piece + u[|piece|..];
  }

  /**
   * Any mix of line and block calls, over any answers of the kernel, up to the first failure: what
   * the callers receive is the function `Delivered` of the stream and the calls alone, and it is a
   * prefix of the stream.  Without a failure all calls are served and no byte is lost.
   */
  method Run(rio: Rio, usr: array<char>, calls: seq<Call>) returns (ok: bool, got: seq<seq<char>>)
    requires rio.Valid() && usr != rio.buf && usr.Length > 0
    requires forall i :: 0 <= i < |calls| ==> Fits(calls[i], usr.Length)
    modifies rio, rio.fd, rio.buf, usr
    ensures rio.Valid() && rio.fd.failures == old(rio.fd.failures) + (if ok then 0 else 1)
    ensures |got| <= |calls| && got == Delivered(old(rio.Unread()), calls[..|got|])
    ensures Concat(got) <= old(rio.Unread())
    ensures ok ==> |got| == |calls| && old(rio.Unread()) == Concat(got) + rio.Unread()
    decreases |calls|
  {
    hide Rio.Unread, Rio.Valid, Delivery, Delivered, Concat;
    ServedNone(rio.Unread(), calls);
    if calls == [] {
      return true, [];
    }
    ghost var u := rio.Unread();
    var piece;
    ok, piece := Serve(rio, usr, calls[0]);
    if !ok {
      return false, [];
    }
    var rest;
    ok, rest := Run(rio, usr, calls[1..]);
    got := [piece] + rest;
    ServedOne(u, calls, piece, rest);
    if ok {
      assert u == piece + u[|piece|..];
    }
  }
}

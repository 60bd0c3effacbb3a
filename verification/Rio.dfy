/**
 The robust I/O package of Lab5/csapp.c.

 A descriptor answers read() calls as a script says: with a chunk of any size, with an
 interruption, or with an error; when the script is used up it gives all it is asked for.
 */
module Rio {
  import opened Numbers

  type Byte = b: int | 0 <= b < 256

  const RIO_BUFSIZE := 8192
  const NEWLINE: Byte := 10

  datatype Answer = Give(atMost: nat) | Interrupted | Error

  // EINTR is the one error that rio_read answers by calling read again.
  datatype Errno = EINTR | EIO

  ghost predicate NoErrors(script: seq<Answer>) {
    forall i :: 0 <= i < |script| ==> script[i] != Error
  }

  // The answers given between two points, of which the later ones are still to come.
  ghost function Given(before: seq<Answer>, after: seq<Answer>): seq<Answer> {
    if |after| <= |before| then before[..|before| - |after|] else []
  }

  // Of the answers given in between, an error is reported, and nothing else is.
  ghost predicate Reports(before: seq<Answer>, after: seq<Answer>, failed: bool) {
    && before == Given(before, after) + after
    && (failed <==> Error in Given(before, after))
  }

  lemma ReportsTwice(a: seq<Answer>, b: seq<Answer>, c: seq<Answer>, failed: bool)
    requires Reports(a, b, false) && Reports(b, c, failed)
    ensures Reports(a, c, failed)
  {
    assert Given(a, c) == Given(a, b) + Given(b, c);
  }

  lemma NothingGiven(a: seq<Answer>)
    ensures Reports(a, a, false)
  {
  }

  lemma SameSlice(a: seq<Byte>, i: nat, b: seq<Byte>, k: nat, n: nat)
    requires i + n <= |a| && k + n <= |b|
    requires forall j :: i <= j < i + n ==> a[j] == b[k + (j - i)]
    ensures a[i..i + n] == b[k..k + n]
  {
    var x, y := a[i..i + n], b[k..k + n];
    assert forall m :: 0 <= m < n ==> x[m] == y[m];
  }

  lemma Prefix(a: seq<Byte>, b: seq<Byte>, n: nat)
    requires n <= |a|
    ensures (a + b)[..n] == a[..n] && (a + b)[n..] == a[n..] + b
  {
  }

  lemma SplitSlice(a: seq<Byte>, i: nat, m: nat, n: nat)
    requires m <= n && i + n <= |a|
    ensures a[i..i + n][..m] == a[i..i + m] && a[i..i + n][m..] == a[i + m..i + n]
  {
  }

  class Descriptor {
    const data: seq<Byte>
    var pos: nat
    var script: seq<Answer>

    ghost predicate Valid()
      reads this
    {
      pos <= |data|
    }

    // What read() has not given out yet.
    ghost function Rest(): seq<Byte>
      reads this
      requires Valid()
    {
      data[pos..]
    }

    constructor (data: seq<Byte>, script: seq<Answer>)
      ensures Valid() && Rest() == data && this.script == script
    {
      this.data, this.script, pos := data, script, 0;
    }

    // read(): at least one byte unless the data has ended, and at most n.
    method Read(buf: array<Byte>, at: nat, n: nat) returns (r: int, errno: Errno)
      requires Valid() && 1 <= n && at + n <= buf.Length
      modifies this, buf
      ensures Valid()
      ensures r >= 0 ==>
        && r <= n && r <= |old(Rest())| && Rest() == old(Rest())[r..] && buf[at..at + r] == old(Rest())[..r]
        && (r == 0 <==> old(Rest()) == [])
      ensures r < 0 ==> r == -1 && Rest() == old(Rest()) && |script| < |old(script)|
      ensures forall i :: 0 <= i < buf.Length && !(at <= i < at + r) ==> buf[i] == old(buf[i])
      ensures NoErrors(old(script)) ==> NoErrors(script) && (r < 0 ==> errno == EINTR)
      ensures |script| <= |old(script)|
      ensures Reports(old(script), script, r < 0 && errno != EINTR)
    {
      errno := EINTR;
      var chunk := n;
      if script != [] {
        var answer := script[0];
        script := script[1..];
        match answer
        case Interrupted => return -1, EINTR;
        case Error => return -1, EIO;
        case Give(k) => chunk := if k == 0 then 1 else k;
      }
      var count := Min(Min(chunk, n), |data| - pos);
      forall j | at <= j < at + count {
        buf[j] := data[pos + (j - at)];
      }
      SameSlice(buf[..], at, data, pos, count);
      assert data[pos..][..count] == data[pos..pos + count];
      pos := pos + count;
      r := count;
    }
  }

  class RioReader {
    const fd: Descriptor
    const buf: array<Byte>
    var cnt: int
    var bufptr: nat

    ghost predicate Valid()
      reads this, fd
    {
      && fd.Valid() && buf.Length == RIO_BUFSIZE
      && (cnt > 0 ==> bufptr + cnt <= RIO_BUFSIZE)
    }

    // The bytes still to be delivered: the unread ones of the buffer, then the descriptor's.
    ghost function Unread(): seq<Byte>
      reads this, fd, buf
      requires Valid()
    {
      (if cnt > 0 then buf[bufptr..bufptr + cnt] else []) + fd.Rest()
    }

    // rio_readinitb
    constructor (fd: Descriptor)
      requires fd.Valid()
      ensures Valid() && this.fd == fd && Unread() == fd.Rest() && fresh(buf)
    {
      this.fd := fd;
      buf := new Byte[RIO_BUFSIZE];
      cnt, bufptr := 0, 0;
    }

    // The refill loop of rio_read. It ends with bytes in the buffer, at the end of the data,
    // or with an error that is no interruption.
    method Refill() returns (status: int)
      requires Valid()
      modifies this, fd, buf
      ensures Valid() && Unread() == old(Unread())
      ensures status > 0 ==> cnt > 0
      ensures status == 0 ==> Unread() == [] && cnt <= 0
      ensures status < 0 ==> status == -1
      ensures NoErrors(old(fd.script)) ==> NoErrors(fd.script) && status >= 0
      ensures Reports(old(fd.script), fd.script, status < 0)
    {
      hide Reports;
      NothingGiven(fd.script);
      while cnt <= 0
        invariant Valid() && Unread() == old(Unread())
        invariant NoErrors(old(fd.script)) ==> NoErrors(fd.script)
        invariant Reports(old(fd.script), fd.script, false)
        decreases |fd.script|, -cnt
      {
        ghost var rest, script := fd.Rest(), fd.script;
        var errno;
        cnt, errno := fd.Read(buf, 0, RIO_BUFSIZE);
        ReportsTwice(old(fd.script), script, fd.script, cnt < 0 && errno != EINTR);
        if cnt < 0 {
          if errno != EINTR {
            return -1;
          }
        } else if cnt == 0 {
          return 0;
        } else {
          bufptr := 0;
          assert rest == rest[..cnt] + rest[cnt..];
        }
      }
      return 1;
    }

    method RioRead(usrbuf: array<Byte>, at: nat, n: nat) returns (r: int)
      requires Valid() && at + n <= usrbuf.Length && usrbuf != buf
      modifies this, fd, buf, usrbuf
      ensures Valid()
      ensures r >= 0 ==>
        && r <= n && r <= |old(Unread())| && Unread() == old(Unread())[r..]
        && usrbuf[at..at + r] == old(Unread())[..r]
        && (r == 0 <==> n == 0 || old(Unread()) == [])
      ensures r < 0 ==> r == -1 && Unread() == old(Unread())
      ensures forall i :: 0 <= i < usrbuf.Length && !(at <= i < at + r) ==> usrbuf[i] == old(usrbuf[i])
      ensures NoErrors(old(fd.script)) ==> NoErrors(fd.script) && r >= 0
      ensures Reports(old(fd.script), fd.script, r < 0)
    {
      hide Reports;
      var status := Refill();
      if status <= 0 {
        return status;
      }
      var count := n;
      if cnt < n {
        count := cnt;
      }
      TakeOut(usrbuf, at, count);
      return count;
    }

    // Moves the first bytes of the buffer out of it.
    method TakeOut(usrbuf: array<Byte>, at: nat, count: nat)
      requires Valid() && 0 < cnt && count <= cnt && at + count <= usrbuf.Length && usrbuf != buf
      modifies this, usrbuf
      ensures Valid() && count <= |old(Unread())| && Unread() == old(Unread())[count..]
      ensures usrbuf[at..at + count] == old(Unread())[..count]
      ensures forall i :: 0 <= i < usrbuf.Length && !(at <= i < at + count) ==> usrbuf[i] == old(usrbuf[i])
    {
      ghost var bytes, rest := buf[bufptr..bufptr + cnt], fd.Rest();
      Prefix(bytes, rest, count);
      SplitSlice(buf[..], bufptr, count, cnt);
      CopyOut(usrbuf, at, count);
      bufptr := bufptr + count;
      cnt := cnt - count;
    }

    // The memcpy of rio_read.
    method CopyOut(usrbuf: array<Byte>, at: nat, count: nat)
      requires bufptr + count <= buf.Length && at + count <= usrbuf.Length && usrbuf != buf
      modifies usrbuf
      ensures usrbuf[at..at + count] == buf[bufptr..bufptr + count]
      ensures forall i :: 0 <= i < usrbuf.Length && !(at <= i < at + count) ==> usrbuf[i] == old(usrbuf[i])
    {
      forall j | at <= j < at + count {
        usrbuf[j] := buf[bufptr + (j - at)];
      }
      SameSlice(usrbuf[..], at, buf[..], bufptr, count);
    }

    // rio_readnb: n bytes, or all there are.
    method RioReadnb(usrbuf: array<Byte>, n: nat) returns (r: int)
      requires Valid() && n <= usrbuf.Length && usrbuf != buf
      modifies this, fd, buf, usrbuf
      ensures Valid()
      ensures r >= 0 ==>
        && r == Min(n, |old(Unread())|)
        && usrbuf[..r] == old(Unread())[..r] && Unread() == old(Unread())[r..]
      ensures r < 0 ==> r == -1 && exists k :: 0 <= k <= |old(Unread())| && Unread() == old(Unread())[k..]
      ensures NoErrors(old(fd.script)) ==> NoErrors(fd.script) && r >= 0
      ensures Reports(old(fd.script), fd.script, r < 0)
    {
      hide Valid, Unread, Reports;
      ghost var all := Unread();
      NothingGiven(fd.script);
      var nleft, at := n, 0;
      while nleft > 0
        invariant Valid() && at + nleft == n && nleft >= 0
        invariant at <= |all| && usrbuf[..at] == all[..at] && Unread() == all[at..]
        invariant NoErrors(old(fd.script)) ==> NoErrors(fd.script)
        invariant Reports(old(fd.script), fd.script, false)
      {
        ghost var script := fd.script;
        var nread := RioRead(usrbuf, at, nleft);
        ReportsTwice(old(fd.script), script, fd.script, nread < 0);
        if nread < 0 {
          return -1;
        } else if nread == 0 {
          break;
        }
        assert all[at..][..nread] == all[at..at + nread] && all[at..][nread..] == all[at + nread..];
        assert usrbuf[..at + nread] == usrbuf[..at] + usrbuf[at..at + nread];
        nleft := nleft - nread;
        at := at + nread;
      }
      return n - nleft;
    }

    // rio_read(rp, &c, 1)
    method ReadByte() returns (rc: int, c: Byte)
      requires Valid()
      modifies this, fd, buf
      ensures Valid()
      ensures rc == 1 ==> old(Unread()) != [] && c == old(Unread())[0] && Unread() == old(Unread())[1..]
      ensures rc == 0 ==> old(Unread()) == Unread() == []
      ensures rc == 1 || rc == 0 || (rc == -1 && Unread() == old(Unread()))
      ensures NoErrors(old(fd.script)) ==> NoErrors(fd.script) && rc >= 0
      ensures Reports(old(fd.script), fd.script, rc < 0)
    {
      hide Reports;
      var one := new Byte[1];
      rc := RioRead(one, 0, 1);
      c := 0;
      if rc == 1 {
        c := one[0];
        assert one[0..1][0] == one[0];
      }
    }

    // rio_readlineb: up to and with a newline, the end of the data, or maxlen - 1 bytes; with
    // a zero byte behind it, except when nothing was left to read.
    method RioReadlineb(usrbuf: array<Byte>, maxlen: nat) returns (r: int)
      requires Valid() && 1 <= maxlen <= usrbuf.Length && usrbuf != buf
      modifies this, fd, buf, usrbuf
      ensures Valid()
      ensures r >= 0 ==>
        && r == LineLength(old(Unread()), maxlen - 1)
        && usrbuf[..r] == old(Unread())[..r] && Unread() == old(Unread())[r..]
        && (r > 0 || maxlen == 1 ==> usrbuf[r] == 0)
      ensures r < 0 ==> r == -1 && exists k :: 0 <= k <= |old(Unread())| && Unread() == old(Unread())[k..]
      ensures NoErrors(old(fd.script)) ==> NoErrors(fd.script) && r >= 0
      ensures Reports(old(fd.script), fd.script, r < 0)
    {
      hide Valid, Unread, Reports;
      ghost var all := Unread();
      NothingGiven(fd.script);
      var n, at := 1, 0;
      while n < maxlen
        invariant Valid() && at == n - 1 && n <= maxlen
        invariant at <= |all| && usrbuf[..at] == all[..at] && Unread() == all[at..]
        invariant forall i :: 0 <= i < at ==> all[i] != NEWLINE
        invariant NoErrors(old(fd.script)) ==> NoErrors(fd.script)
        invariant Reports(old(fd.script), fd.script, false)
      {
        ghost var script := fd.script;
        var rc, c := ReadByte();
        ReportsTwice(old(fd.script), script, fd.script, rc < 0);
        if rc == 1 {
          usrbuf[at] := c;
          at := at + 1;
          if c == NEWLINE {
            n := n + 1;
            break;
          }
        } else if rc == 0 {
          if n == 1 {
            return 0;
          } else {
            break;
          }
        } else {
          return -1;
        }
        n := n + 1;
      }
      LineLengthIs(all, maxlen - 1, at);
      usrbuf[at] := 0;
      return n - 1;
    }

    // One buffered read into a buffer of the size it asks for.
    method Perform(call: Call) returns (ok: bool, out: seq<Byte>)
      requires Valid() && (call.Readlineb? ==> call.maxlen >= 1)
      modifies this, fd, buf
      ensures Valid()
      ensures NoErrors(old(fd.script)) ==> ok && NoErrors(fd.script)
      ensures Reports(old(fd.script), fd.script, !ok)
      ensures ok ==> var k := Taken(call, old(Unread())); out == old(Unread())[..k] && Unread() == old(Unread())[k..]
    {
      hide Valid, Unread, Reports;
      var r, usrbuf;
      match call {
        case Readnb(n) =>
          usrbuf := new Byte[n];
          r := RioReadnb(usrbuf, n);
        case Readlineb(maxlen) =>
          usrbuf := new Byte[maxlen];
          r := RioReadlineb(usrbuf, maxlen);
      }
      if r < 0 {
        return false, [];
      }
      return true, usrbuf[..r];
    }

    // Any mix of buffered reads. What they deliver depends on the byte stream alone, not on
    // how read() splits it.
    method Session(calls: seq<Call>) returns (ok: bool, outs: seq<seq<Byte>>)
      requires Valid() && forall i :: 0 <= i < |calls| ==> calls[i].Readlineb? ==> calls[i].maxlen >= 1
      modifies this, fd, buf
      ensures Valid()
      ensures NoErrors(old(fd.script)) ==> ok
      ensures Reports(old(fd.script), fd.script, !ok)
      ensures ok ==> outs == Deliver(calls, old(Unread())) && Unread() == Left(calls, old(Unread()))
    {
      hide Valid, Unread, Reports;
      ghost var all := Unread();
      NothingGiven(fd.script);
      outs := [];
      for i := 0 to |calls|
        invariant Valid()
        invariant NoErrors(old(fd.script)) ==> NoErrors(fd.script)
        invariant Reports(old(fd.script), fd.script, false)
        invariant outs + Deliver(calls[i..], Unread()) == Deliver(calls, all)
        invariant Left(calls[i..], Unread()) == Left(calls, all)
      {
        assert calls[i..][0] == calls[i] && calls[i..][1..] == calls[i + 1..];
        ghost var script := fd.script;
        var out;
        ok, out := Perform(calls[i]);
        ReportsTwice(old(fd.script), script, fd.script, !ok);
        if !ok {
          return;
        }
        outs := outs + [out];
      }
      assert Deliver(calls[|calls|..], Unread()) == [];
      ok := true;
    }
  }

  // One buffered read.
  datatype Call = Readnb(n: nat) | Readlineb(maxlen: nat)

  function Taken(call: Call, s: seq<Byte>): (k: nat)
    ensures k <= |s|
  {
    match call
    case Readnb(n) => Min(n, |s|)
    case Readlineb(maxlen) => if maxlen == 0 then 0 else LineLength(s, maxlen - 1)
  }

  // What a mix of reads delivers from a byte stream, and what it leaves.
  function Deliver(calls: seq<Call>, s: seq<Byte>): seq<seq<Byte>>
    decreases |calls|
  {
    if calls == [] then []
    else
      var k := Taken(calls[0], s);
      [s[..k]] + Deliver(calls[1..], s[k..])
  }

  function Left(calls: seq<Call>, s: seq<Byte>): seq<Byte>
    decreases |calls|
  {
    if calls == [] then s else Left(calls[1..], s[Taken(calls[0], s)..])
  }

  function Flatten(parts: seq<seq<Byte>>): seq<Byte> {
    if parts == [] then [] else parts[0] + Flatten(parts[1..])
  }

  // The deliveries are consecutive slices: put together, and followed by what is left, they
  // are the stream. Nothing is lost, repeated or reordered.
  lemma {:induction false} DeliverSlices(calls: seq<Call>, s: seq<Byte>)
    ensures Flatten(Deliver(calls, s)) + Left(calls, s) == s
    decreases |calls|
  {
    if calls != [] {
      var k := Taken(calls[0], s);
      DeliverSlices(calls[1..], s[k..]);
      assert Deliver(calls, s)[1..] == Deliver(calls[1..], s[k..]);
      assert s == s[..k] + s[k..];
    }
  }

  // Reads of n >= 1 bytes, one after the other, come to the end of the stream.
  lemma {:induction false} ReadsReachEnd(calls: seq<Call>, s: seq<Byte>)
    requires |s| <= |calls|
    requires forall i :: 0 <= i < |calls| ==> match calls[i]
      case Readnb(n) => n >= 1
      case Readlineb(maxlen) => maxlen >= 2
    ensures Left(calls, s) == [] && Flatten(Deliver(calls, s)) == s
    decreases |calls|
  {
    if calls != [] {
      var k := Taken(calls[0], s);
      ReadsReachEnd(calls[1..], s[k..]);
      DeliverSlices(calls, s);
    }
  }

  // How many bytes a line takes: up to and with the first newline, at most max.
  function LineLength(s: seq<Byte>, max: nat): (n: nat)
    ensures n <= max && n <= |s|
  {
    if s == [] || max == 0 then 0
    else if s[0] == NEWLINE then 1
    else 1 + LineLength(s[1..], max - 1)
  }

  // It is the only length without an earlier newline that ends in one, at the end, or at max.
  lemma {:induction false} LineLengthIs(s: seq<Byte>, max: nat, n: nat)
    requires n <= max && n <= |s|
    requires forall i :: 0 <= i < n - 1 ==> s[i] != NEWLINE
    requires n == |s| || n == max || (n > 0 && s[n - 1] == NEWLINE)
    ensures LineLength(s, max) == n
  {
    if s != [] && max > 0 && s[0] != NEWLINE {
      LineLengthIs(s[1..], max - 1, n - 1);
    }
  }

  lemma {:induction false} LineLengthEnds(s: seq<Byte>, max: nat)
    ensures var n := LineLength(s, max);
      && (forall i :: 0 <= i < n - 1 ==> s[i] != NEWLINE)
      && (n == |s| || n == max || (n > 0 && s[n - 1] == NEWLINE))
  {
    if s != [] && max > 0 && s[0] != NEWLINE {
      LineLengthEnds(s[1..], max - 1);
      var n := LineLength(s[1..], max - 1);
      assert forall i :: 0 < i < n ==> s[i] == s[1..][i - 1];
      assert n > 0 ==> s[1..][n - 1] == s[n];
    }
  }

  // ----- Unbuffered input and output

  // rio_readn
  method RioReadn(fd: Descriptor, usrbuf: array<Byte>, n: nat) returns (r: int)
    requires fd.Valid() && n <= usrbuf.Length
    modifies fd, usrbuf
    ensures fd.Valid()
    ensures r >= 0 ==>
      && r == Min(n, |old(fd.Rest())|)
      && usrbuf[..r] == old(fd.Rest())[..r] && fd.Rest() == old(fd.Rest())[r..]
    ensures r < 0 ==> r == -1
    ensures NoErrors(old(fd.script)) ==> NoErrors(fd.script) && r >= 0
    ensures Reports(old(fd.script), fd.script, r < 0)
  {
    hide Descriptor.Rest, Reports;
    ghost var all := fd.Rest();
    NothingGiven(fd.script);
    var nleft, at := n, 0;
    while nleft > 0
      invariant fd.Valid() && at + nleft == n && nleft >= 0
      invariant at <= |all| && usrbuf[..at] == all[..at] && fd.Rest() == all[at..]
      invariant NoErrors(old(fd.script)) ==> NoErrors(fd.script)
      invariant Reports(old(fd.script), fd.script, false)
      decreases nleft, |fd.script|
    {
      ghost var script := fd.script;
      var nread, errno := fd.Read(usrbuf, at, nleft);
      ReportsTwice(old(fd.script), script, fd.script, nread < 0 && errno != EINTR);
      if nread < 0 {
        if errno == EINTR {
          nread := 0;
        } else {
          return -1;
        }
      } else if nread == 0 {
        break;
      }
      assert all[at..][..nread] == all[at..at + nread] && all[at..][nread..] == all[at + nread..];
      assert usrbuf[..at + nread] == usrbuf[..at] + usrbuf[at..at + nread];
      nleft := nleft - nread;
      at := at + nread;
    }
    return n - nleft;
  }

  // The receiving end of write().
  class Sink {
    var written: seq<Byte>
    var script: seq<Answer>

    constructor (script: seq<Answer>)
      ensures written == [] && this.script == script
    {
      written, this.script := [], script;
    }

    // write(): at least one byte and at most n.
    method Write(buf: array<Byte>, at: nat, n: nat) returns (r: int, errno: Errno)
      requires 1 <= n && at + n <= buf.Length
      modifies this
      ensures r >= 0 ==> 1 <= r <= n && written == old(written) + buf[at..at + r]
      ensures r < 0 ==> r == -1 && written == old(written) && |script| < |old(script)|
      ensures NoErrors(old(script)) ==> NoErrors(script) && (r < 0 ==> errno == EINTR)
      ensures Reports(old(script), script, r < 0 && errno != EINTR)
    {
      errno := EINTR;
      var chunk := n;
      if script != [] {
        var answer := script[0];
        script := script[1..];
        match answer
        case Interrupted => return -1, EINTR;
        case Error => return -1, EIO;
        case Give(k) => chunk := if k == 0 then 1 else k;
      }
      r := Min(chunk, n);
      written := written + buf[at..at + r];
    }
  }

  // rio_writen: all n bytes, unless there is an error.
  method RioWriten(fd: Sink, usrbuf: array<Byte>, n: nat) returns (r: int)
    requires n <= usrbuf.Length
    modifies fd
    ensures r == n ==> fd.written == old(fd.written) + usrbuf[..n]
    ensures r == n || (r == -1 && exists k :: 0 <= k <= n && fd.written == old(fd.written) + usrbuf[..k])
    ensures NoErrors(old(fd.script)) ==> r == n
    ensures Reports(old(fd.script), fd.script, r < 0)
  {
    hide Reports;
    ghost var before := fd.written;
    NothingGiven(fd.script);
    var nleft, at := n, 0;
    while nleft > 0
      invariant at + nleft == n && nleft >= 0
      invariant fd.written == before + usrbuf[..at]
      invariant NoErrors(old(fd.script)) ==> NoErrors(fd.script)
      invariant Reports(old(fd.script), fd.script, false)
      decreases nleft, |fd.script|
    {
      ghost var script := fd.script;
      var nwritten, errno := fd.Write(usrbuf, at, nleft);
      ReportsTwice(old(fd.script), script, fd.script, nwritten < 0 && errno != EINTR);
      if nwritten <= 0 {
        if errno == EINTR {
          nwritten := 0;
        } else {
          return -1;
        }
      }
      assert usrbuf[..at + nwritten] == usrbuf[..at] + usrbuf[at..at + nwritten];
      nleft := nleft - nwritten;
      at := at + nwritten;
    }
    return n;
  }
}

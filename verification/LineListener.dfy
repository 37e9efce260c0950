/**
  Line reassembly in DescriptorListener::handle_read_ (src/Generics/Listener.cpp), in full
  lines mode: bytes arrive in fragments of any size, and the callback is given whole lines.
 */
module LineListener {

  type Bytes = string

  // ---------------------------------------------------------------- what is delivered

  predicate NoNewline(s: Bytes)
  {
    forall i :: 0 <= i < |s| ==> s[i] != '\n'
  }

  /** Concatenation of pieces. */
  function Flat(pieces: seq<Bytes>): Bytes
  {
    if pieces == [] then [] else pieces[0] + Flat(pieces[1..])
  }

  /** A piece ends at its first newline or, failing that, fills the buffer. */
  predicate Piece(p: Bytes, length: nat)
  {
    && 0 < |p| <= length
    && NoNewline(p[..|p| - 1])
    && (|p| < length ==> p[|p| - 1] == '\n')
  }

  /** What is still waiting for its newline. */
  predicate Rest(r: Bytes, length: nat)
  {
    |r| < length && NoNewline(r)
  }

  /** s falls into these pieces and this rest. */
  ghost predicate Splits(s: Bytes, pieces: seq<Bytes>, rest: Bytes, length: nat)
  {
    && s == Flat(pieces) + rest
    && (forall i :: 0 <= i < |pieces| ==> Piece(pieces[i], length))
    && Rest(rest, length)
  }

  lemma {:induction false} FlatAppend(a: seq<Bytes>, b: seq<Bytes>)
    ensures Flat(a + b) == Flat(a) + Flat(b)
  {
    if a == [] {
      assert a + b == b;
    } else {
      FlatAppend(a[1..], b);
      assert (a + b)[1..] == a[1..] + b;
      Associative(a[0], Flat(a[1..]), Flat(b));
    }
  }

  lemma Associative<T>(a: seq<T>, b: seq<T>, c: seq<T>)
    ensures a + (b + c) == a + b + c
  {
  }

  /** A piece is found again at the front of anything that continues it. */
  lemma PieceIsFirst(p: Bytes, q: Bytes, length: nat)
    requires Piece(p, length) && Piece(q, length) && (p <= q || q <= p)
    ensures p == q
  {
    if |p| < |q| {
      assert false;
    } else if |q| < |p| {
      assert false;
    }
  }

  lemma RestHasNoPiece(r: Bytes, p: Bytes, length: nat)
    requires Rest(r, length) && Piece(p, length)
    ensures !(p <= r)
  {
    if p <= r {
      assert false;
    }
  }

  lemma {:induction false} SplitIsUnique(s: Bytes, a: seq<Bytes>, r: Bytes, b: seq<Bytes>, t: Bytes, length: nat)
    requires Splits(s, a, r, length) && Splits(s, b, t, length)
    ensures a == b && r == t
    decreases |a|
  {
    hide Piece, Rest;
    if a == [] {
      if b != [] {
        assert s == r && b[0] <= s;
        RestHasNoPiece(r, b[0], length);
        assert false;
      }
    } else if b == [] {
      assert s == t && a[0] <= s;
      RestHasNoPiece(t, a[0], length);
      assert false;
    } else {
      assert a[0] <= s && b[0] <= s;
      PieceIsFirst(a[0], b[0], length);
      var u := s[|a[0]|..];
      assert u == Flat(a[1..]) + r && u == Flat(b[1..]) + t;
      SplitIsUnique(u, a[1..], r, b[1..], t, length);
    }
  }

  lemma StartSplit(r: Bytes, length: nat)
    requires Rest(r, length)
    ensures Splits(r, [], r, length)
  {
  }

  /** More bytes continue a split from its rest. */
  lemma SplitContinues(s: Bytes, a: seq<Bytes>, r: Bytes, more: Bytes, b: seq<Bytes>, t: Bytes, length: nat)
    requires Splits(s, a, r, length) && Splits(r + more, b, t, length)
    ensures Splits(s + more, a + b, t, length)
  {
    FlatAppend(a, b);
    Associative(Flat(a), r, more);
    Associative(Flat(a), Flat(b), t);
  }

  lemma NothingYet(buf: Bytes, used: nat)
    requires used <= |buf|
    ensures Flat([]) == buf[..0]
    ensures NoNewline([])
  {
  }

  lemma Joined(buf: Bytes, chunk: nat, scan: nat, lineEnd: nat)
    requires chunk <= scan <= lineEnd <= |buf| && NoNewline(buf[chunk..scan]) && NoNewline(buf[scan..lineEnd])
    ensures NoNewline(buf[chunk..lineEnd])
  {
    assert buf[chunk..lineEnd] == buf[chunk..scan] + buf[scan..lineEnd];
  }

  lemma AddLine(buf: Bytes, chunk: nat, lineEnd: nat, lines: seq<Bytes>, length: nat)
    requires chunk <= lineEnd < |buf| <= length && NoNewline(buf[chunk..lineEnd]) && buf[lineEnd] == '\n'
    requires Flat(lines) == buf[..chunk]
    ensures Piece(buf[chunk..lineEnd + 1], length)
    ensures Flat(lines + [buf[chunk..lineEnd + 1]]) == buf[..lineEnd + 1]
  {
    var line := buf[chunk..lineEnd + 1];
    assert line[..|line| - 1] == buf[chunk..lineEnd];
    FlatAppend(lines, [line]);
    assert Flat([line]) == line + Flat([]);
  }

  // ---------------------------------------------------------------- the descriptor

  /** What one read() of the descriptor meets. `Data` is what the kernel holds ready. */
  datatype Offer = Data(bytes: Bytes) | Interrupted | WouldBlock | EndOfFile | Failure(errno: int)

  predicate Sound(o: Offer)
  {
    o.Data? ==> o.bytes != []
  }

  predicate AllSound(offers: seq<Offer>)
  {
    forall i :: 0 <= i < |offers| ==> Sound(offers[i])
  }

  /** The byte stream: everything offered before the end of file or an error. */
  function Input(offers: seq<Offer>): Bytes
  {
    if offers == [] then []
    else match offers[0]
      case Data(bytes) => bytes + Input(offers[1..])
      case EndOfFile => []
      case Failure(_) => []
      case _ => Input(offers[1..])
  }

  predicate Ends(o: Offer)
  {
    o.EndOfFile? || o.Failure?
  }

  predicate Closes(offers: seq<Offer>)
  {
    exists i :: 0 <= i < |offers| && Ends(offers[i])
  }

  /** The offers after `res` bytes of the first one were read. */
  function Remaining(offers: seq<Offer>, res: nat): seq<Offer>
    requires offers != [] && offers[0].Data? && res <= |offers[0].bytes|
  {
    if res < |offers[0].bytes| then offers[0 := Data(offers[0].bytes[res..])] else offers[1..]
  }

  lemma TailCloses(offers: seq<Offer>)
    requires offers != []
    ensures Closes(offers) <==> Ends(offers[0]) || Closes(offers[1..])
  {
    if Closes(offers) {
      var i :| 0 <= i < |offers| && Ends(offers[i]);
      if i > 0 { assert Ends(offers[1..][i - 1]); }
    }
    if Closes(offers[1..]) {
      var i :| 0 <= i < |offers| - 1 && Ends(offers[1..][i]);
      assert Ends(offers[i + 1]);
    }
  }

  lemma SkipOffer(offers: seq<Offer>)
    requires offers != [] && (offers[0].Interrupted? || offers[0].WouldBlock?)
    ensures Input(offers) == Input(offers[1..]) && (Closes(offers) <==> Closes(offers[1..]))
  {
    TailCloses(offers);
  }

  lemma LastOffer(offers: seq<Offer>)
    requires offers != [] && Ends(offers[0])
    ensures Closes(offers) && Input(offers) == []
  {
  }

  lemma TakeBytes(offers: seq<Offer>, res: nat)
    requires offers != [] && offers[0].Data? && res <= |offers[0].bytes|
    ensures Input(offers) == offers[0].bytes[..res] + Input(Remaining(offers, res))
    ensures Closes(offers) <==> Closes(Remaining(offers, res))
  {
    TailCloses(offers);
    var b := offers[0].bytes;
    if res < |b| {
      var r := Remaining(offers, res);
      assert r[1..] == offers[1..];
      TailCloses(r);
      assert b == b[..res] + b[res..];
      assert b[..res] + b[res..] + Input(offers[1..]) == b[..res] + (b[res..] + Input(offers[1..]));
    } else {
      assert b[..res] == b;
    }
  }

  class Listener {
    const length: nat           // BUFFERS_LENGTH_
    const buffer: array<char>
    var used: nat               // used_buffer
    var delivered: seq<Bytes>   // arguments of on_data_ready, in order
    var closed: bool            // on_closed was called

    /** Between reads the buffer is never full, so read() is never asked for zero bytes. */
    ghost predicate Valid()
      reads this, buffer
    {
      buffer.Length == length && used < length && Rest(buffer[..used], length)
    }

    constructor (length: nat)
      requires length > 0
      ensures Valid() && fresh(buffer) && this.length == length && used == 0 && delivered == [] && !closed
    {
      this.length := length;
      buffer := new char[length];
      used := 0;
      delivered := [];
      closed := false;
    }

    /** Deliver every line that ends in the `res` bytes just read after `used`; what is left starts at `chunk`. */
    method DeliverLines(res: nat) returns (chunk: nat)
      requires used + res <= length == buffer.Length && NoNewline(buffer[..used])
      modifies this`delivered
      ensures chunk == 0 || used < chunk <= used + res
      ensures NoNewline(buffer[chunk..used + res])
      ensures old(delivered) <= delivered
      ensures chunk == 0 ==> delivered == old(delivered)
      ensures var lines := delivered[|old(delivered)|..];
              && Flat(lines) == buffer[..chunk]
              && forall i :: 0 <= i < |lines| ==> Piece(lines[i], length)
    {
      hide Flat, Piece, NoNewline;
      var scan, stop := used, used + res;
      chunk := 0;
      ghost var lines: seq<Bytes> := [];
      ghost var buf := buffer[..];
      NothingYet(buf, used);
      while true
        invariant used <= scan <= stop && (if chunk == 0 then scan == used && lines == [] else used < chunk == scan)
        invariant NoNewline(buf[chunk..scan])
        invariant delivered == old(delivered) + lines
        invariant Flat(lines) == buf[..chunk] && forall i :: 0 <= i < |lines| ==> Piece(lines[i], length)
        decreases stop - scan
      {
        var lineEnd := FindNewline(scan, stop);
        assert buffer[scan..lineEnd] == buf[scan..lineEnd];
        Joined(buf, chunk, scan, lineEnd);
        if lineEnd == stop {
          assert buffer[chunk..stop] == buf[chunk..stop] && buffer[..chunk] == buf[..chunk];
          return;
        }
        AddLine(buf, chunk, lineEnd, lines, length);
        assert buffer[chunk..lineEnd + 1] == buf[chunk..lineEnd + 1];
        lines := lines + [buf[chunk..lineEnd + 1]];
        delivered := delivered + [buffer[chunk..lineEnd + 1]];
        scan := lineEnd + 1;
        chunk := lineEnd + 1;
        NothingYet(buf[chunk..], 0);
        assert buf[chunk..scan] == [];
      }
    }

    /** memchr: the first newline in the given part of the buffer, or its end. */
    method FindNewline(from: nat, to: nat) returns (i: nat)
      requires from <= to <= buffer.Length
      ensures from <= i <= to
      ensures NoNewline(buffer[from..i])
      ensures i < to ==> buffer[i] == '\n'
    {
      i := from;
      while i < to && buffer[i] != '\n'
        invariant from <= i <= to
        invariant NoNewline(buffer[from..i])
      {
        i := i + 1;
      }
    }

    /** One successful read(): `res` bytes were stored after the used part. */
    method OnRead(res: nat) returns (ghost lines: seq<Bytes>)
      requires buffer.Length == length && 0 < res && used + res <= length && NoNewline(buffer[..used])
      modifies this`delivered, this`used, buffer
      ensures Valid()
      ensures delivered == old(delivered) + lines
      ensures Splits(old(buffer[..used + res]), lines, buffer[..used], length)
    {
      ghost var all := buffer[..used + res];
      var chunk := DeliverLines(res);
      lines := delivered[|old(delivered)|..];
      var left := used + res - chunk;
      // check overflow
      if (if chunk == 0 then res else left) + used == length {
        assert chunk == 0;
        assert lines == [] && all == buffer[..length];
        assert NoNewline(all[..|all| - 1]);
        delivered := delivered + [buffer[..length]];
        lines := [all];
        assert Flat(lines) == all + Flat([]);
        used := 0;
        return;
      }
      if chunk != 0 {
        assert all == buffer[..chunk] + buffer[chunk..used + res];
        MoveDown(chunk, left);
        used := left;
      } else {
        used := used + res;
      }
    }

    /** memmove of `count` bytes at `from` to the start of the buffer. */
    method MoveDown(from: nat, count: nat)
      requires from + count <= buffer.Length
      modifies buffer
      ensures buffer[..count] == old(buffer[from..from + count])
    {
      forall i | 0 <= i < count {
        buffer[i] := buffer[from + i];
      }
    }

    /** read() of at most the free part of the buffer. */
    method Read(bytes: Bytes) returns (res: nat)
      requires Valid() && bytes != []
      modifies buffer
      ensures 0 < res <= |bytes| && used + res <= length
      ensures buffer[..used + res] == old(buffer[..used]) + bytes[..res]
    {
      hide Rest;
      res := if |bytes| < length - used then |bytes| else length - used;
      forall i | 0 <= i < res {
        buffer[used + i] := bytes[i];
      }
    }

    /** One turn of the loop that gets data. */
    method ReadSome(bytes: Bytes) returns (res: nat, ghost lines: seq<Bytes>)
      requires Valid() && bytes != []
      modifies this`delivered, this`used, buffer
      ensures Valid() && 0 < res <= |bytes|
      ensures delivered == old(delivered) + lines
      ensures Splits(old(buffer[..used]) + bytes[..res], lines, buffer[..used], length)
    {
      ghost var rest := buffer[..used];
      res := Read(bytes);
      assert buffer[..used] == rest by {
        assert buffer[..used] == buffer[..used + res][..used];
      }
      lines := OnRead(res);
    }

    /**
      handle_read_: reads until the descriptor would block, ends or fails. `got` are the
      bytes taken from the offers and `lines` what they complete.
     */
    method HandleRead(offers: seq<Offer>) returns (left: seq<Offer>, ghost got: Bytes, ghost lines: seq<Bytes>)
      requires Valid() && !closed && AllSound(offers)
      modifies this, buffer
      ensures Valid() && AllSound(left) && |left| <= |offers| && (offers != [] ==> |left| < |offers|)
      ensures Input(offers) == got + if closed then [] else Input(left)
      ensures Closes(offers) <==> closed || Closes(left)
      ensures Splits(old(buffer[..used]) + got, lines, buffer[..used], length)
      ensures delivered == old(delivered) + lines + if closed && used > 0 then [buffer[..used]] else []
    {
      hide Splits, Rest, Closes, Input;
      left, got, lines := offers, [], [];
      ghost var before := buffer[..used];
      StartSplit(before, length);
      assert before + got == before;
      while left != []
        invariant Valid() && !closed && AllSound(left) && |left| <= |offers|
        invariant Input(offers) == got + Input(left)
        invariant Closes(offers) <==> Closes(left)
        invariant Splits(before + got, lines, buffer[..used], length)
        invariant delivered == old(delivered) + lines
        decreases |left|, if left == [] || !left[0].Data? then 0 else |left[0].bytes|
      {
        if left[0].Data? {
          var bytes := left[0].bytes;
          ghost var rest := buffer[..used];
          var res, more := ReadSome(bytes);
          SplitContinues(before + got, lines, rest, bytes[..res], more, buffer[..used], length);
          Associative(before, got, bytes[..res]);
          TakeBytes(left, res);
          Associative(got, bytes[..res], Input(Remaining(left, res)));
          Associative(old(delivered), lines, more);
          got := got + bytes[..res];
          lines := lines + more;
          left := Remaining(left, res);
        } else if Ends(left[0]) {
          LastOffer(left);
          Close();
          left := left[1..];
          return;
        } else {
          SkipOffer(left);
          var blocked := left[0].WouldBlock?;
          left := left[1..];
          if blocked {
            return;
          }
        }
      }
    }

    method Close()
      requires Valid()
      modifies this`delivered, this`closed
      ensures closed && delivered == old(delivered) + if used > 0 then [buffer[..used]] else []
    {
      if used > 0 {
        delivered := delivered + [buffer[..used]];
      }
      closed := true;
    }
  }

  // ---------------------------------------------------------------- whole connections

  /** The length of the first piece of s, or 0 if s is still waiting for one. */
  function FirstCut(s: Bytes, length: nat): (n: nat)
    requires length > 0
    ensures n <= |s|
    ensures n > 0 ==> Piece(s[..n], length)
    ensures n == 0 ==> Rest(s, length)
  {
    if s == [] then 0
    else if s[0] == '\n' || length == 1 then 1
    else
      var n := FirstCut(s[1..], length - 1);
      assert n > 0 ==> s[..n + 1] == [s[0]] + s[1..][..n];
      assert n > 0 ==> s[..n + 1][..n] == [s[0]] + s[1..][..n][..n - 1];
      if n == 0 then 0 else n + 1
  }

  /** Cutting greedily: up to the first newline, or `length` bytes. */
  function Greedy(s: Bytes, length: nat): (r: (seq<Bytes>, Bytes))
    requires length > 0
    ensures Splits(s, r.0, r.1, length)
  {
    var n := FirstCut(s, length);
    if n == 0 then ([], s)
    else
      var (pieces, rest) := Greedy(s[n..], length);
      PieceInFront(s, n, pieces, rest, length);
      ([s[..n]] + pieces, rest)
  }

  lemma PieceInFront(s: Bytes, n: nat, pieces: seq<Bytes>, rest: Bytes, length: nat)
    requires n <= |s| && Piece(s[..n], length) && Splits(s[n..], pieces, rest, length)
    ensures Splits(s, [s[..n]] + pieces, rest, length)
  {
    hide Piece, Rest;
    var all := [s[..n]] + pieces;
    assert all[1..] == pieces;
    assert s == s[..n] + s[n..];
    assert s[..n] + (Flat(pieces) + rest) == s[..n] + Flat(pieces) + rest;
  }

  /** What a connection delivers, as a function of its byte stream alone. */
  function Expected(input: Bytes, closes: bool, length: nat): seq<Bytes>
    requires length > 0
  {
    var (pieces, rest) := Greedy(input, length);
    pieces + if closes && rest != [] then [rest] else []
  }

  /**
    However read() splits the stream, and whenever it blocks or is interrupted, the
    deliveries are those of the stream cut greedily.
   */
  method Connection(length: nat, offers: seq<Offer>) returns (delivered: seq<Bytes>)
    requires length > 0 && AllSound(offers)
    ensures delivered == Expected(Input(offers), Closes(offers), length)
  {
    hide Splits, Expected, Closes, Rest, Input, AllSound;
    var l := new Listener(length);
    var left := offers;
    ghost var got: Bytes, lines: seq<Bytes> := [], [];
    assert l.buffer[..l.used] == [];
    StartSplit([], length);
    NothingLeft();
    while left != [] && !l.closed
      invariant l.Valid() && AllSound(left) && fresh(l) && fresh(l.buffer) && l.length == length
      invariant Input(offers) == got + if l.closed then [] else Input(left)
      invariant Closes(offers) <==> l.closed || Closes(left)
      invariant Splits(got, lines, l.buffer[..l.used], length)
      invariant l.delivered == lines + if l.closed && l.used > 0 then [l.buffer[..l.used]] else []
      decreases |left|
    {
      ghost var rest := l.buffer[..l.used];
      assert l.delivered == lines;
      ghost var more, completed;
      left, more, completed := l.HandleRead(left);
      SplitContinues(got, lines, rest, more, completed, l.buffer[..l.used], length);
      ghost var tail := if l.closed then [] else Input(left);
      Associative(got, more, tail);
      got := got + more;
      lines := lines + completed;
    }
    delivered := l.delivered;
    assert Input(offers) == got;
    assert l.used > 0 <==> l.buffer[..l.used] != [];
    ExpectedIs(got, lines, l.buffer[..l.used], l.closed, length);
  }

  lemma NothingLeft()
    ensures Input([]) == [] && !Closes([])
  {
  }

  lemma ExpectedIs(s: Bytes, pieces: seq<Bytes>, rest: Bytes, closes: bool, length: nat)
    requires length > 0 && Splits(s, pieces, rest, length)
    ensures Expected(s, closes, length) == pieces + if closes && rest != [] then [rest] else []
  {
    SplitIsUnique(s, pieces, rest, Greedy(s, length).0, Greedy(s, length).1, length);
  }

  /** Nothing is lost or reordered: the deliveries are the stream, up to what waits for its newline. */
  lemma NothingLost(input: Bytes, closes: bool, length: nat)
    requires length > 0
    ensures Flat(Expected(input, closes, length)) <= input
    ensures var waits := input[|Flat(Expected(input, closes, length))|..];
            if closes then waits == [] else |waits| < length && forall i :: 0 <= i < |waits| ==> waits[i] != '\n'
  {
    var (pieces, rest) := Greedy(input, length);
    hide Greedy;
    if closes && rest != [] {
      FlatAppend(pieces, [rest]);
      assert Flat([rest]) == rest + Flat([]);
    } else {
      assert pieces + [] == pieces;
    }
  }

  /** Two short streams, with a buffer that is long enough and one that is not. */
  lemma KnownLines()
    ensures Expected("a\nbc", true, 4) == ["a\n", "bc"] && Expected("a\nbc", false, 4) == ["a\n"]
    ensures Expected("abcd\n", false, 3) == ["abc", "d\n"]
  {
    hide Expected, Splits, Flat;
    KnownSplits();
    ExpectedIs("a\nbc", ["a\n"], "bc", true, 4);
    ExpectedIs("a\nbc", ["a\n"], "bc", false, 4);
    ExpectedIs("abcd\n", ["abc", "d\n"], [], false, 3);
  }

  lemma KnownSplits()
    ensures Splits("a\nbc", ["a\n"], "bc", 4) && Splits("abcd\n", ["abc", "d\n"], [], 3)
  {
    assert Flat(["a\n"]) == "a\n" && Flat(["d\n"]) == "d\n" by {
      assert ["a\n"][1..] == [] && ["d\n"][1..] == [];
    }
    assert Flat(["abc", "d\n"]) == "abc" + "d\n" by {
      assert ["abc", "d\n"][1..] == ["d\n"];
    }
    hide Flat;
    assert "a\n" + "bc" == "a\nbc" && "abc" + "d\n" + [] == "abcd\n";
  }
}

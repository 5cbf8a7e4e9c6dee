/** Plugin log capture: bytes in arbitrary Write calls become trimmed lines in a ring buffer. */
module LogCapture {
  type Bytes = seq<bv8>

  const NEWLINE: bv8 := 10
  const RETURN: bv8 := 13
  const DEFAULT_CAPACITY := 200

  /** The newest n elements. */
  function LastN<T>(s: seq<T>, n: nat): seq<T> {
    if |s| <= n then s else s[|s| - n..]
  }

  lemma LastNSnoc<T>(s: seq<T>, x: T, n: nat)
    requires n > 0
    ensures LastN(s + [x], n) == (if |LastN(s, n)| < n then LastN(s, n) else LastN(s, n)[1..]) + [x]
  {
  }

  // ----- The ring buffer -----

  /** An index past the end by less than a whole turn wraps to the front. */
  function Wrap(a: nat, c: nat): (r: nat)
    requires 0 < c && a < 2 * c
    ensures r == if a < c then a else a - c
  {
    assert c <= a ==> a == 1 * c + (a - c);
    a % c
  }

  predicate Slots<T>(e: seq<T>, start: nat, size: nat) {
    start < |e| && size <= |e|
  }

  /** The stored elements, oldest first: from `start` on, wrapping at the end. */
  function Ring<T>(e: seq<T>, start: nat, size: nat): (s: seq<T>)
    requires Slots(e, start, size)
    ensures |s| == size
    ensures forall i :: 0 <= i < size ==> s[i] == e[if start + i < |e| then start + i else start + i - |e|]
  {
    if start + size <= |e| then e[start..start + size] else e[start..] + e[..start + size - |e|]
  }

  lemma RingGrows<T>(e: seq<T>, start: nat, size: nat, x: T)
    requires Slots(e, start, size) && size < |e|
    ensures var at := if start + size < |e| then start + size else start + size - |e|;
            Ring(e[at := x], start, size + 1) == Ring(e, start, size) + [x]
  {
  }

  lemma RingTurns<T>(e: seq<T>, start: nat, x: T)
    requires Slots(e, start, |e|)
    ensures var next := if start + 1 < |e| then start + 1 else 0;
            Ring(e[start := x], next, |e|) == Ring(e, start, |e|)[1..] + [x]
  {
  }

  class RingBuffer<T(0)> {
    const entries: array<T>
    const capacity: nat
    var start: nat
    var size: nat
    /** Everything pushed since the last Clear. */
    ghost var pushed: seq<T>

    constructor (capacity: int)
      ensures Valid() && fresh(entries) && pushed == []
      ensures this.capacity == if capacity <= 0 then DEFAULT_CAPACITY else capacity
    {
      this.capacity := if capacity <= 0 then DEFAULT_CAPACITY else capacity;
      entries := new T[if capacity <= 0 then DEFAULT_CAPACITY else capacity];
      start, size, pushed := 0, 0, [];
    }

    ghost predicate Valid()
      reads this, entries
    {
      && capacity == entries.Length && Slots(entries[..], start, size)
      && Ring(entries[..], start, size) == LastN(pushed, capacity)
    }

    method Push(entry: T)
      requires Valid()
      modifies this, entries
      ensures Valid() && pushed == old(pushed) + [entry]
    {
      LastNSnoc(pushed, entry, capacity);
      hide LastN, Ring, Wrap;
      if size < capacity {
        RingGrows(entries[..], start, size, entry);
        var idx := Wrap(start + size, capacity);
        entries[idx] := entry;
        size := size + 1;
        assert entries[..] == old(entries[..])[idx := entry];
      } else {
        RingTurns(entries[..], start, entry);
        entries[start] := entry;
        start := Wrap(start + 1, capacity);
        assert entries[..] == old(entries[..])[old(start) := entry];
      }
      pushed := pushed + [entry];
    }

    /** Oldest first. */
    method Entries() returns (result: seq<T>)
      requires Valid()
      ensures result == LastN(pushed, capacity)
    {
      hide Ring, Wrap;
      result := [];
      var i := 0;
      while i < size
        invariant i <= size && result == Ring(entries[..], start, size)[..i]
      {
        var idx := Wrap(start + i, capacity);
        result := result + [entries[idx]];
        i := i + 1;
      }
    }

    method Clear()
      requires Valid()
      modifies this
      ensures Valid() && pushed == []
    {
      start, size, pushed := 0, 0, [];
    }
  }

  // ----- White space in UTF-8 -----

  /** The number of bytes of the white-space character that starts `s`, 0 if none does. */
  function SpaceAt(s: Bytes): (n: nat)
    ensures n <= |s|
  {
    if |s| > 0 && (9 <= s[0] <= 13 || s[0] == 32) then 1
    else if |s| > 1 && s[0] == 0xC2 && (s[1] == 0x85 || s[1] == 0xA0) then 2
    else if |s| > 2 && IsWideSpace(s[0], s[1], s[2]) then 3
    else 0
  }

  /** The three-byte encodings: U+1680, U+2000 to U+200A, U+2028, U+2029, U+202F, U+205F and U+3000. */
  predicate IsWideSpace(a: bv8, b: bv8, c: bv8) {
    || (a == 0xE1 && b == 0x9A && c == 0x80)
    || (a == 0xE2 && b == 0x80 && (0x80 <= c <= 0x8A || c == 0xA8 || c == 0xA9 || c == 0xAF))
    || (a == 0xE2 && b == 0x81 && c == 0x9F)
    || (a == 0xE3 && b == 0x80 && c == 0x80)
  }

  /** The number of bytes of the white-space character that ends `s`, 0 if none does. */
  function SpaceBefore(s: Bytes): (n: nat)
    ensures n <= |s|
    ensures n > 0 ==> SpaceAt(s[|s| - n..]) == n
  {
    if |s| > 0 && SpaceAt(s[|s| - 1..]) == 1 then 1
    else if |s| > 1 && SpaceAt(s[|s| - 2..]) == 2 then 2
    else if |s| > 2 && SpaceAt(s[|s| - 3..]) == 3 then 3
    else 0
  }

  /** The UTF-8 form of a code point of the basic plane. */
  function Utf8(c: bv16): Bytes {
    if c < 0x80 then [c as bv8]
    else if c < 0x800 then [0xC0 | ((c >> 6) as bv8), 0x80 | ((c & 0x3F) as bv8)]
    else [0xE0 | ((c >> 12) as bv8), 0x80 | (((c >> 6) & 0x3F) as bv8), 0x80 | ((c & 0x3F) as bv8)]
  }

  /** unicode.IsSpace. */
  predicate IsSpace(c: bv16) {
    || 0x09 <= c <= 0x0D || c == 0x20 || c == 0x85 || c == 0xA0 || c == 0x1680
    || 0x2000 <= c <= 0x200A || c == 0x2028 || c == 0x2029 || c == 0x202F || c == 0x205F || c == 0x3000
  }

  /** The bytes of a character start with white space exactly if it is a white-space character, and then are it. */
  lemma SpaceByCodePoint(c: bv16)
    ensures SpaceAt(Utf8(c)) == if IsSpace(c) then |Utf8(c)| else 0
  {
  }

  function TrimFront(s: Bytes): Bytes {
    if SpaceAt(s) == 0 then s else TrimFront(s[SpaceAt(s)..])
  }

  function TrimBack(s: Bytes): Bytes {
    if SpaceBefore(s) == 0 then s else TrimBack(s[..|s| - SpaceBefore(s)])
  }

  function TrimSpace(s: Bytes): Bytes {
    TrimBack(TrimFront(s))
  }

  /** `s` is nothing but white-space characters. */
  predicate Blank(s: Bytes) {
    s == [] || (SpaceAt(s) > 0 && Blank(s[SpaceAt(s)..]))
  }

  /** Whether white space starts a text shows in its first bytes. */
  lemma SpaceAtIsLocal(s: Bytes, t: Bytes)
    ensures SpaceAt(s) > 0 ==> SpaceAt(s + t) == SpaceAt(s) == SpaceAt(s[..SpaceAt(s)])
    ensures SpaceAt(s + t) == 0 ==> SpaceAt(s) == 0
  {
    assert forall i :: 0 <= i < |s| ==> (s + t)[i] == s[i];
  }

  lemma {:induction false} BlankJoin(a: Bytes, b: Bytes)
    requires Blank(a) && Blank(b)
    ensures Blank(a + b)
  {
    hide SpaceAt;
    if a == [] {
      assert a + b == b;
    } else {
      var n := SpaceAt(a);
      SpaceAtIsLocal(a, b);
      assert (a + b)[n..] == a[n..] + b;
      BlankJoin(a[n..], b);
    }
  }

  lemma BlankPiece(s: Bytes)
    requires 0 < SpaceAt(s) == |s|
    ensures Blank(s)
  {
    hide SpaceAt;
  }

  lemma {:induction false} FrontIsBlank(s: Bytes) returns (w: Bytes)
    ensures Blank(w) && s == w + TrimFront(s)
    ensures SpaceAt(TrimFront(s)) == 0
  {
    hide SpaceAt;
    var n := SpaceAt(s);
    if n == 0 {
      w := [];
    } else {
      var v := FrontIsBlank(s[n..]);
      SpaceAtIsLocal(s, []);
      assert s + [] == s;
      BlankPiece(s[..n]);
      BlankJoin(s[..n], v);
      w := s[..n] + v;
    }
  }

  lemma {:induction false} BackIsBlank(s: Bytes) returns (w: Bytes)
    ensures Blank(w) && s == TrimBack(s) + w
    ensures SpaceBefore(TrimBack(s)) == 0
    ensures SpaceAt(s) == 0 ==> SpaceAt(TrimBack(s)) == 0
  {
    hide SpaceAt, SpaceBefore, Blank;
    var n := SpaceBefore(s);
    if n == 0 {
      w := [];
      NothingIsBlank();
    } else {
      var front, last := s[..|s| - n], s[|s| - n..];
      assert s == front + last;
      var v := BackIsBlank(front);
      BlankPiece(last);
      BlankJoin(v, last);
      SpaceAtIsLocal(front, last);
      w := v + last;
    }
  }

  lemma NothingIsBlank()
    ensures Blank([])
  {
  }

  /** Trimming removes only white space, and leaves none at either end. */
  lemma TrimSpaceIsMaximal(s: Bytes) returns (w: Bytes, v: Bytes)
    ensures Blank(w) && Blank(v) && s == w + TrimSpace(s) + v
    ensures SpaceAt(TrimSpace(s)) == 0 && SpaceBefore(TrimSpace(s)) == 0
  {
    hide SpaceAt, SpaceBefore, Blank, TrimFront, TrimBack;
    w := FrontIsBlank(s);
    v := BackIsBlank(TrimFront(s));
  }

  /** Exactly the lines that are all white space trim to nothing. */
  lemma TrimsToNothing(s: Bytes)
    ensures TrimSpace(s) == [] <==> Blank(s)
  {
    hide SpaceAt, SpaceBefore, TrimFront, Blank;
    if TrimSpace(s) == [] {
      var w, v := TrimSpaceIsMaximal(s);
      BlankJoin(w, v);
      assert s == w + v;
    }
    if Blank(s) {
      BlankTrims(s);
    }
  }

  lemma {:induction false} BlankTrims(s: Bytes)
    requires Blank(s)
    ensures TrimFront(s) == []
  {
    hide SpaceAt;
    if s != [] {
      BlankTrims(s[SpaceAt(s)..]);
    }
  }

  // ----- Lines -----

  /** The bytes after the last newline. */
  function Tail(h: Bytes): Bytes {
    if h == [] || h[|h| - 1] == NEWLINE then [] else Tail(h[..|h| - 1]) + [h[|h| - 1]]
  }

  /** The complete lines, in order. */
  function Lines(h: Bytes): seq<Bytes> {
    if h == [] then []
    else if h[|h| - 1] == NEWLINE then Lines(h[..|h| - 1]) + [Tail(h[..|h| - 1])]
    else Lines(h[..|h| - 1])
  }

  function Unsplit(lines: seq<Bytes>): Bytes {
    if lines == [] then [] else Unsplit(lines[..|lines| - 1]) + lines[|lines| - 1] + [NEWLINE]
  }

  predicate OneLine(line: Bytes) {
    NEWLINE !in line
  }

  /** The lines and the tail are the one way to cut the bytes at their newlines. */
  lemma {:induction false} LinesAreTheCut(h: Bytes, lines: seq<Bytes>, tail: Bytes)
    ensures (lines == Lines(h) && tail == Tail(h))
            <==> (Unsplit(lines) + tail == h && OneLine(tail) && forall i :: 0 <= i < |lines| ==> OneLine(lines[i]))
    decreases |h|
  {
    if h == [] {
      if lines != [] {
        assert |Unsplit(lines)| > 0;
      }
      return;
    }
    var front, last := h[..|h| - 1], h[|h| - 1];
    assert h == front + [last];
    if last != NEWLINE {
      if tail != [] && tail[|tail| - 1] == last {
        var short := tail[..|tail| - 1];
        assert tail == short + [last];
        LinesAreTheCut(front, lines, short);
        assert Unsplit(lines) + tail == Unsplit(lines) + short + [last];
        assert OneLine(tail) <==> OneLine(short);
      } else if tail == [] && lines != [] {
        assert (Unsplit(lines) + tail)[|Unsplit(lines) + tail| - 1] == NEWLINE;
      } else if tail != [] {
        assert (Unsplit(lines) + tail)[|Unsplit(lines) + tail| - 1] == tail[|tail| - 1];
      }
    } else {
      if tail != [] {
        assert (Unsplit(lines) + tail)[|Unsplit(lines) + tail| - 1] == tail[|tail| - 1];
      } else if lines != [] {
        var less, line := lines[..|lines| - 1], lines[|lines| - 1];
        assert lines == less + [line];
        LinesAreTheCut(front, less, line);
        assert Unsplit(lines) + tail == Unsplit(less) + line + [last];
        assert Lines(h) == Lines(front) + [Tail(front)];
        assert lines == Lines(h) <==> less == Lines(front) && line == Tail(front);
      }
    }
  }

  function TrimReturns(s: Bytes): Bytes {
    if s != [] && s[|s| - 1] == RETURN then TrimReturns(s[..|s| - 1]) else s
  }

  function LineText(line: Bytes): Bytes {
    TrimSpace(TrimReturns(line))
  }

  /** The texts of the lines that are not blank. */
  function Kept(lines: seq<Bytes>): seq<Bytes> {
    if lines == [] then []
    else
      var text := LineText(lines[|lines| - 1]);
      Kept(lines[..|lines| - 1]) + if text == [] then [] else [text]
  }

  lemma KeptSnoc(lines: seq<Bytes>, line: Bytes)
    ensures Kept(lines + [line]) == Kept(lines) + if LineText(line) == [] then [] else [LineText(line)]
  {
    assert (lines + [line])[..|lines|] == lines;
  }

  lemma OneMoreByte(h: Bytes, b: bv8)
    ensures Tail(h + [b]) == if b == NEWLINE then [] else Tail(h) + [b]
    ensures Lines(h + [b]) == if b == NEWLINE then Lines(h) + [Tail(h)] else Lines(h)
  {
    assert (h + [b])[..|h|] == h;
  }

  class LogInterceptor {
    const buffer: RingBuffer<Bytes>
    var lineBuf: Bytes
    /** The bytes of all Write calls; a Flush that finds an unterminated line counts as its newline. */
    ghost var history: Bytes

    constructor (buffer: RingBuffer<Bytes>)
      requires buffer.Valid() && buffer.pushed == []
      ensures Valid() && this.buffer == buffer && history == []
    {
      this.buffer, lineBuf, history := buffer, [], [];
    }

    /** What is buffered and what was pushed depend on the bytes alone. */
    ghost predicate Valid()
      reads this, buffer, buffer.entries
    {
      buffer.Valid() && lineBuf == Tail(history) && buffer.pushed == Kept(Lines(history))
    }

    method ProcessLine(line: Bytes)
      requires buffer.Valid()
      modifies buffer, buffer.entries
      ensures buffer.Valid()
      ensures buffer.pushed == old(buffer.pushed) + if TrimSpace(line) == [] then [] else [TrimSpace(line)]
    {
      var trimmed := TrimSpace(line);
      if trimmed == [] {
        return;
      }
      buffer.Push(trimmed);
    }

    method Write(p: Bytes) returns (n: nat)
      requires Valid()
      modifies this, buffer, buffer.entries
      ensures Valid() && n == |p| && history == old(history) + p
    {
      hide Kept, Lines, Tail, TrimReturns, TrimSpace, LastN;
      for i := 0 to |p|
        invariant buffer.Valid() && history == old(history) + p[..i]
        invariant lineBuf == Tail(history) && buffer.pushed == Kept(Lines(history))
      {
        var b := p[i];
        OneMoreByte(history, b);
        KeptSnoc(Lines(history), Tail(history));
        if b == NEWLINE {
          var line := lineBuf;
          lineBuf := [];
          ProcessLine(TrimReturns(line));
        } else {
          lineBuf := lineBuf + [b];
        }
        history := history + [b];
      }
      n := |p|;
    }

    method Flush()
      requires Valid()
      modifies this, buffer, buffer.entries
      ensures Valid() && lineBuf == []
      ensures history == old(history) + if Tail(old(history)) == [] then [] else [NEWLINE]
    {
      hide Kept, Lines, Tail, TrimReturns, TrimSpace, LastN;
      if lineBuf != [] {
        OneMoreByte(history, NEWLINE);
        KeptSnoc(Lines(history), Tail(history));
        var line := lineBuf;
        lineBuf := [];
        ProcessLine(TrimReturns(line));
        history := history + [NEWLINE];
      }
    }
  }

  /** A whole capture: however the stream is cut, the log holds the last non-blank complete lines, oldest first. */
  method Capture(capacity: int, pieces: seq<Bytes>, ghost stream: Bytes) returns (log: seq<Bytes>, rest: Bytes)
    requires Joined(pieces) == stream
    ensures log == LastN(Kept(Lines(stream)), if capacity <= 0 then DEFAULT_CAPACITY else capacity)
    ensures rest == Tail(stream)
  {
    var buffer := new RingBuffer<Bytes>(capacity);
    var interceptor := new LogInterceptor(buffer);
    for i := 0 to |pieces|
      invariant interceptor.buffer == buffer && fresh(interceptor) && fresh(buffer) && fresh(buffer.entries)
      invariant interceptor.Valid() && interceptor.history == Joined(pieces[..i])
    {
      assert pieces[..i + 1][..i] == pieces[..i];
      var n := interceptor.Write(pieces[i]);
    }
    assert pieces[..|pieces|] == pieces;
    log := buffer.Entries();
    rest := interceptor.lineBuf;
  }

  function Joined(pieces: seq<Bytes>): Bytes {
    if pieces == [] then [] else Joined(pieces[..|pieces| - 1]) + pieces[|pieces| - 1]
  }
}

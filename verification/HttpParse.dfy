/** What the reader makes of a well-formed head. */
module HttpParse {
  import opened HttpText

  /** What follows does not matter. */
  lemma ScanFront(t: Table, a: seq<byte>, b: seq<byte>, n: nat)
    requires Shaped(t) && n <= |a|
    ensures ScanTo(t, a + b, n) == ScanTo(t, a, n)
  {
    assert (a + b)[..n] == a[..n];
    ScanSame(t, a + b, a, n);
  }

  lemma {:induction false} ScanConcatTo(t: Table, a: seq<byte>, b: seq<byte>, n: nat)
    requires Shaped(t) && n <= |b|
    ensures ScanTo(t, a + b, |a| + n) == ScanTo(Scan(t, a), b, n)
  {
    if n == 0 {
      ScanFront(t, a, b, |a|);
    } else {
      ScanConcatTo(t, a, b, n - 1);
    }
  }

  lemma ScanConcat(t: Table, a: seq<byte>, b: seq<byte>)
    requires Shaped(t)
    ensures Scan(t, a + b) == Scan(Scan(t, a), b)
  {
    ScanConcatTo(t, a, b, |b|);
  }

  /** One byte more. */
  lemma ScanSnoc(t: Table, s: seq<byte>, b: byte)
    requires Shaped(t)
    ensures Scan(t, s + [b]) == Step(Scan(t, s), b)
  {
    ScanFront(t, s, [b], |s|);
  }

  predicate Plain(s: seq<byte>) {
    forall i :: 0 <= i < |s| ==> s[i] != LF
  }

  /** Bytes that are neither line ends nor the first colon of their line are stored as they are. */
  lemma {:induction false} ScanPlain(t: Table, s: seq<byte>, n: nat)
    requires Shaped(t) && Plain(s) && n <= |s|
    requires COLON !in s || t.values[|t.values| - 1] != NULLPTR
    ensures ScanTo(t, s, n) == t.(buf := t.buf + s[..n])
  {
    if n == 0 {
      assert t.buf + s[..0] == t.buf;
    } else {
      ScanPlain(t, s, n - 1);
      assert t.buf + s[..n] == (t.buf + s[..n - 1]) + [s[n - 1]];
    }
  }

  /** Before the first line end only the tables' first entries are touched. */
  lemma {:induction false} ScanStatus(s: seq<byte>, n: nat)
    requires n <= |s| && forall i :: 0 <= i < n ==> s[i] != LF
    ensures |ScanTo(START, s, n).keys| == 1
  {
    if n > 0 {
      ScanStatus(s, n - 1);
    }
  }

  /** Plain bytes, then one that is looked at. */
  lemma ScanThen(t: Table, s: seq<byte>, b: byte)
    requires Shaped(t) && Plain(s)
    requires COLON !in s || t.values[|t.values| - 1] != NULLPTR
    ensures Scan(t, s + [b]) == Step(t.(buf := t.buf + s), b)
  {
    ScanPlain(t, s, |s|);
    assert s[..|s|] == s;
    ScanSnoc(t, s, b);
  }

  /** A name and its colon, stored: the value begins after the colon and one more byte. */
  function Opened(t: Table, name: seq<byte>): (r: Table)
    requires Shaped(t)
    ensures Shaped(r) && r.values[|r.values| - 1] != NULLPTR
  {
    Table(t.buf + name + [NUL], t.keys, t.values[|t.values| - 1 := |t.buf| + |name| + 2])
  }

  /** The rest of a line and its end, stored. */
  function Closed(t: Table, rest: seq<byte>): (r: Table)
    requires Shaped(t)
    ensures Shaped(r)
  {
    var buf := t.buf + rest;
    Table(buf + [NUL], t.keys + [|buf| + 1], t.values + [NULLPTR])
  }

  function LineTable(t: Table, l: Line): (r: Table)
    requires Shaped(t)
    ensures Shaped(r)
  {
    match l
    case Bare(name) => Closed(t, name)
    case WithColon(name, rest) => Closed(Opened(t, name), rest)
  }

  /** What a line adds to the buffer. */
  function Cells(l: Line): seq<byte> {
    match l
    case Bare(name) => name + [NUL]
    case WithColon(name, rest) => name + [NUL] + (rest + [NUL])
  }

  lemma LineTableBuffer(t: Table, l: Line)
    requires Shaped(t)
    ensures LineTable(t, l).buf == t.buf + Cells(l)
  {
    if l.WithColon? {
      assert (t.buf + l.name + [NUL]) + l.rest + [NUL] == t.buf + (l.name + [NUL] + (l.rest + [NUL]));
    } else {
      assert t.buf + l.name + [NUL] == t.buf + (l.name + [NUL]);
    }
  }

  lemma ScanOpened(t: Table, name: seq<byte>)
    requires Shaped(t) && Plain(name) && COLON !in name && t.values[|t.values| - 1] == NULLPTR
    ensures Scan(t, name + [COLON]) == Opened(t, name)
  {
    ScanThen(t, name, COLON);
  }

  lemma ScanClosed(t: Table, rest: seq<byte>)
    requires Shaped(t) && Plain(rest) && (COLON !in rest || t.values[|t.values| - 1] != NULLPTR)
    ensures Scan(t, rest + [LF]) == Closed(t, rest)
  {
    ScanThen(t, rest, LF);
  }

  lemma ScanLine(t: Table, l: Line)
    requires Shaped(t) && GoodLine(l) && t.values[|t.values| - 1] == NULLPTR
    ensures Scan(t, LineText(l)) == LineTable(t, l)
  {
    match l
    case Bare(name) => ScanClosed(t, name);
    case WithColon(name, rest) =>
      ScanOpened(t, name);
      ScanClosed(Opened(t, name), rest);
      ScanConcat(t, name + [COLON], rest + [LF]);
  }

  /** A C string at position `at`. */
  predicate IsString(buf: seq<byte>, at: int, s: seq<byte>) {
    0 <= at && at + |s| < |buf| && buf[at..at + |s|] == s && buf[at + |s|] == NUL
  }

  /** Entry `i + 1` of the tables belongs to this line. */
  predicate Found(t: Table, i: nat, l: Line) {
    && i + 2 < |t.keys| == |t.values|
    && IsString(t.buf, t.keys[i + 1], l.name)
    && match l
       case Bare(_) => t.values[i + 1] == NULLPTR
       case WithColon(_, rest) =>
         if rest == [] then t.values[i + 1] == t.keys[i + 2] else IsString(t.buf, t.values[i + 1], rest[1..])
  }

  lemma StringStays(buf: seq<byte>, more: seq<byte>, at: int, s: seq<byte>)
    requires IsString(buf, at, s)
    ensures IsString(buf + more, at, s)
  {
    assert (buf + more)[at..at + |s|] == buf[at..at + |s|];
  }

  /** Later lines leave an earlier one as it is. */
  lemma FoundStays(t: Table, t': Table, more: seq<byte>, i: nat, l: Line)
    requires Found(t, i, l) && t'.buf == t.buf + more && t.keys <= t'.keys && |t'.keys| == |t'.values|
    requires t'.values[i + 1] == t.values[i + 1]
    ensures Found(t', i, l)
  {
    StringStays(t.buf, more, t.keys[i + 1], l.name);
    if l.WithColon? && l.rest != [] {
      StringStays(t.buf, more, t.values[i + 1], l.rest[1..]);
    }
  }

  lemma NameString(buf: seq<byte>, l: Line)
    ensures IsString(buf + Cells(l), |buf|, l.name)
  {
    var buf' := buf + Cells(l);
    assert buf'[|buf|..|buf| + |l.name|] == l.name;
  }

  lemma ValueString(buf: seq<byte>, name: seq<byte>, rest: seq<byte>)
    requires rest != []
    ensures IsString(buf + Cells(WithColon(name, rest)), |buf| + |name| + 2, rest[1..])
  {
    var buf', v := buf + (name + [NUL] + (rest + [NUL])), |buf| + |name| + 2;
    assert buf'[v..v + |rest| - 1] == rest[1..];
  }

  lemma CellStrings(buf: seq<byte>, l: Line)
    ensures IsString(buf + Cells(l), |buf|, l.name)
    ensures l.WithColon? && l.rest != [] ==> IsString(buf + Cells(l), |buf| + |l.name| + 2, l.rest[1..])
  {
    NameString(buf, l);
    if l.WithColon? && l.rest != [] {
      ValueString(buf, l.name, l.rest);
    }
  }

  /** The line in hand is the last one, and untouched. */
  predicate Fresh(t: Table) {
    Shaped(t) && |t.keys| > 1 && t.keys[|t.keys| - 1] == |t.buf| && t.values[|t.keys| - 1] == NULLPTR
  }

  lemma FoundNow(t: Table, l: Line)
    requires Fresh(t)
    ensures Found(LineTable(t, l), |t.keys| - 2, l)
  {
    LineTableBuffer(t, l);
    CellStrings(t.buf, l);
  }

  lemma LineCloses(t: Table, l: Line)
    requires Fresh(t)
    ensures Fresh(LineTable(t, l)) && |LineTable(t, l).keys| == |t.keys| + 1
  {
  }

  lemma LineAppends(t: Table, l: Line, i: nat)
    requires Shaped(t) && i < |t.keys| - 1
    ensures t.keys <= LineTable(t, l).keys && LineTable(t, l).values[i] == t.values[i]
  {
  }

  /** The tables after the status line and `k` lines. */
  function TableOf(h: Head, k: nat): (t: Table)
    requires k <= |h.lines|
    ensures Shaped(t)
  {
    if k == 0 then Scan(START, h.status + [LF]) else LineTable(TableOf(h, k - 1), h.lines[k - 1])
  }

  lemma StatusFresh(h: Head)
    requires WellFormed(h)
    ensures Fresh(TableOf(h, 0)) && |TableOf(h, 0).keys| == 2
  {
    ScanStatus(h.status, |h.status|);
    ScanSnoc(START, h.status, LF);
  }

  lemma {:induction false} LinesFresh(h: Head, k: nat)
    requires WellFormed(h) && k <= |h.lines|
    ensures Fresh(TableOf(h, k)) && |TableOf(h, k).keys| == k + 2
  {
    if k == 0 {
      StatusFresh(h);
    } else {
      LinesFresh(h, k - 1);
      LineCloses(TableOf(h, k - 1), h.lines[k - 1]);
    }
  }

  /** One line more: it is found, and an earlier one still is. */
  lemma FoundNext(t: Table, l: Line, i: nat, g: Line)
    requires Fresh(t) && i <= |t.keys| - 2 && if i == |t.keys| - 2 then g == l else Found(t, i, g)
    ensures Found(LineTable(t, l), i, g)
  {
    if i == |t.keys| - 2 {
      FoundNow(t, l);
    } else {
      LineAppends(t, l, i + 1);
      LineTableBuffer(t, l);
      FoundStays(t, LineTable(t, l), Cells(l), i, g);
    }
  }

  /** After `k` lines the tables find every one of them. */
  lemma {:induction false} LinesParsed(h: Head, k: nat, i: nat)
    requires WellFormed(h) && i < k <= |h.lines|
    ensures Found(TableOf(h, k), i, h.lines[i])
  {
    LinesFresh(h, k - 1);
    if i < k - 1 {
      LinesParsed(h, k - 1, i);
    }
    FoundNext(TableOf(h, k - 1), h.lines[k - 1], i, h.lines[i]);
  }

  /** Opens a statement about a text; while it is only passed on, it stays closed. */
  predicate Opens(z: bool) {
    true
  }

  /** Reading the lines gives these tables. */
  ghost predicate ReadAs(h: Head, k: nat)
    requires k <= |h.lines|
  {
    forall z {:trigger Opens(z)} :: Opens(z) ==> Scan(START, Lines(h, k)) == TableOf(h, k)
  }

  lemma {:induction false} ScanLines(h: Head, k: nat)
    requires WellFormed(h) && k <= |h.lines|
    ensures ReadAs(h, k)
  {
    if k > 0 {
      ScanLines(h, k - 1);
      TableNext(h, k);
    } else {
      TableFirst(h);
    }
  }

  lemma TableFirst(h: Head)
    ensures ReadAs(h, 0)
  {
  }

  lemma TableNext(h: Head, k: nat)
    requires WellFormed(h) && 0 < k <= |h.lines| && ReadAs(h, k - 1)
    ensures ReadAs(h, k)
  {
    LinesFresh(h, k - 1);
    assert Pick(k - 1) && Opens(true);
    var t, l := TableOf(h, k - 1), h.lines[k - 1];
    ScanNextLine(Lines(h, k - 1), t, l);
    assert TableOf(h, k) == LineTable(t, l);
  }

  lemma ScanNextLine(text: seq<byte>, t: Table, l: Line)
    requires GoodLine(l) && Fresh(t) && Scan(START, text) == t
    ensures Scan(START, text + LineText(l)) == LineTable(t, l)
  {
    ScanConcat(START, text, LineText(l));
    ScanLine(t, l);
  }

  // ---------- the reader stops at the blank line and not before ----------

  /** The line that was closed last is the status line or does not start with a NUL. */
  predicate Alive(t: Table) {
    && Shaped(t)
    && (|t.keys| > 2 ==> t.keys[|t.keys| - 2] < |t.buf| && t.buf[t.keys[|t.keys| - 2]] != NUL)
  }

  lemma StatusAlive(h: Head, text: seq<byte>)
    requires WellFormed(h) && text == Lines(h, 0)
    ensures AliveIn(text)
  {
    forall j | 0 <= j <= |text|
      ensures Alive(ScanTo(START, text, j))
    {
      if j <= |h.status| {
        ScanStatus(text, j);
      } else {
        StatusFresh(h);
      }
    }
  }

  /** Inside a line, past its first byte, the open line starts with the first byte of the name. */
  lemma {:induction false} WithinLine(t: Table, l: Line, j: nat)
    requires Fresh(t) && GoodLine(l) && 1 <= j < |LineText(l)|
    ensures
      var u := ScanTo(t, LineText(l), j);
      u.keys == t.keys && |t.buf| < |u.buf| && u.buf[..|t.buf| + 1] == t.buf + [l.name[0]]
  {
    var text := LineText(l);
    if j == 1 {
      assert text[0] == l.name[0] && l.name[0] in l.name;
      assert ScanTo(t, text, 0) == t;
    } else {
      WithinLine(t, l, j - 1);
      assert text[j - 1] != LF;
    }
  }

  lemma LineAlive(t: Table, l: Line, j: nat)
    requires Alive(t) && Fresh(t) && GoodLine(l) && 1 <= j <= |LineText(l)|
    ensures Alive(ScanTo(t, LineText(l), j))
  {
    if j < |LineText(l)| {
      WithinLine(t, l, j);
      PrefixAlive(t, ScanTo(t, LineText(l), j), l.name[0]);
    } else {
      ScanLine(t, l);
      ClosedAlive(t, l);
    }
  }

  lemma PrefixAlive(t: Table, u: Table, b: byte)
    requires Alive(t) && Shaped(u) && u.keys == t.keys && |t.buf| < |u.buf| && u.buf[..|t.buf| + 1] == t.buf + [b]
    ensures Alive(u)
  {
    assert forall i :: 0 <= i < |t.buf| ==> u.buf[i] == u.buf[..|t.buf| + 1][i];
  }

  lemma ClosedAlive(t: Table, l: Line)
    requires Fresh(t) && GoodLine(l)
    ensures Alive(LineTable(t, l))
  {
    LineTableBuffer(t, l);
    LineCloses(t, l);
    LineAppends(t, l, 0);
    assert (t.buf + Cells(l))[|t.buf|] == l.name[0];
  }

  /** Wherever the reader is in this text, it is still going. */
  ghost predicate AliveIn(text: seq<byte>) {
    forall j :: 0 <= j <= |text| ==> Alive(ScanTo(START, text, j))
  }

  /** At no byte before the blank line has an empty line been closed. */
  lemma {:induction false} LinesAlive(h: Head, k: nat, text: seq<byte>)
    requires WellFormed(h) && k <= |h.lines| && text == Lines(h, k)
    ensures AliveIn(text)
  {
    if k == 0 {
      StatusAlive(h, text);
    } else {
      var before := Lines(h, k - 1);
      LinesAlive(h, k - 1, before);
      LinesReady(h, k - 1, before);
      LineAdded(h, k - 1, before);
    }
  }

  lemma WholeAlive(h: Head, k: nat)
    requires WellFormed(h) && k <= |h.lines|
    ensures Alive(TableOf(h, k))
  {
    if k == 0 {
      StatusFresh(h);
    } else {
      LinesFresh(h, k - 1);
      assert Pick(k - 1);
      ClosedAlive(TableOf(h, k - 1), h.lines[k - 1]);
    }
  }

  /** After this text a new line begins, and the reader is still going. */
  ghost predicate Ready(text: seq<byte>) {
    forall z {:trigger Opens(z)} :: Opens(z) ==> Fresh(Scan(START, text)) && Alive(Scan(START, text))
  }

  lemma LinesReady(h: Head, k: nat, text: seq<byte>)
    requires WellFormed(h) && k <= |h.lines| && text == Lines(h, k)
    ensures Ready(text)
  {
    ScanLines(h, k);
    WholeAlive(h, k);
    LinesFresh(h, k);
    assert Opens(true);
  }

  lemma LineAdded(h: Head, k: nat, text: seq<byte>)
    requires WellFormed(h) && k < |h.lines| && Ready(text) && AliveIn(text)
    ensures AliveIn(text + LineText(h.lines[k]))
  {
    assert Pick(k);
    TextAlive(text, h.lines[k]);
  }

  lemma TextAlive(text: seq<byte>, l: Line)
    requires Ready(text) && AliveIn(text) && GoodLine(l)
    ensures AliveIn(text + LineText(l))
  {
    forall j | 0 <= j <= |text + LineText(l)|
      ensures Alive(ScanTo(START, text + LineText(l), j))
    {
      if j <= |text| {
        ScanFront(START, text, LineText(l), j);
      } else {
        TextAliveWithin(text, l, j - |text|);
      }
    }
  }

  lemma TextAliveWithin(text: seq<byte>, l: Line, j: nat)
    requires Ready(text) && GoodLine(l) && 1 <= j <= |LineText(l)|
    ensures Alive(ScanTo(START, text + LineText(l), |text| + j))
  {
    assert Opens(true);
    ScanConcatTo(START, text, LineText(l), j);
    LineAlive(Scan(START, text), l, j);
  }

  /** The blank line closes the head: its start now holds a NUL. */
  lemma TextStops(h: Head)
    requires WellFormed(h)
    ensures
      var t := Scan(START, Text(h));
      Stopped(t) && |t.keys| == |h.lines| + 3 && t == Step(TableOf(h, |h.lines|), LF)
  {
    ScanLines(h, |h.lines|);
    LinesFresh(h, |h.lines|);
    assert Opens(true);
    ScanSnoc(START, Lines(h, |h.lines|), LF);
  }

  /** The first `n` bytes of `input` are a head: its text with carriage returns anywhere, ending with a line end. */
  predicate BeginsWith(input: seq<byte>, n: nat, h: Head) {
    0 < n <= |input| && input[n - 1] == LF && StripCR(input, n) == Text(h)
  }

  lemma {:induction false} StripConcat(a: seq<byte>, b: seq<byte>, n: nat)
    requires n <= |b|
    ensures StripCR(a + b, |a| + n) == StripCR(a, |a|) + StripCR(b, n)
  {
    if n == 0 {
      StripFront(a, b, |a|);
      assert StripCR(a, |a|) + [] == StripCR(a, |a|);
    } else {
      StripConcat(a, b, n - 1);
    }
  }

  lemma {:induction false} StripFront(a: seq<byte>, b: seq<byte>, n: nat)
    requires n <= |a|
    ensures StripCR(a + b, n) == StripCR(a, n)
  {
    if n > 0 {
      StripFront(a, b, n - 1);
    }
  }

  lemma {:induction false} StripNothing(s: seq<byte>, n: nat)
    requires n <= |s| && forall i :: 0 <= i < |s| ==> s[i] != CR
    ensures StripCR(s, n) == s[..n]
  {
    if n > 0 {
      StripNothing(s, n - 1);
    }
  }

  /** What stays of these bytes. */
  predicate Strips(s: seq<byte>, t: seq<byte>) {
    StripCR(s, |s|) == t
  }

  lemma StripSum(a: seq<byte>, b: seq<byte>, x: seq<byte>, y: seq<byte>)
    requires Strips(a, x) && Strips(b, y)
    ensures Strips(a + b, x + y)
  {
    StripConcat(a, b, |b|);
  }

  lemma StripEnd()
    ensures Strips(CRLF, [LF])
  {
    assert StripCR(CRLF, 1) == [];
  }

  /** A line without carriage returns, and then its end. */
  lemma StripLine(s: seq<byte>)
    requires forall i :: 0 <= i < |s| ==> s[i] != CR
    ensures Strips(s + CRLF, s + [LF])
  {
    StripNothing(s, |s|);
    assert s[..|s|] == s;
    StripEnd();
    StripSum(s, CRLF, s, [LF]);
  }

  lemma WrittenLine(l: Line)
    requires GoodLine(l)
    ensures Strips(Written(l) + CRLF, LineText(l))
  {
    StripLine(Written(l));
    assert l.WithColon? ==> Written(l) + [LF] == (l.name + [COLON]) + (l.rest + [LF]);
  }

  lemma StripNext(wire: seq<byte>, text: seq<byte>, l: Line, wire': seq<byte>, text': seq<byte>)
    requires Strips(wire, text) && GoodLine(l)
    requires wire' == wire + (Written(l) + CRLF) && text' == text + LineText(l)
    ensures Strips(wire', text')
  {
    WrittenLine(l);
    StripSum(wire, Written(l) + CRLF, text, LineText(l));
  }

  lemma {:induction false} StripLines(h: Head, k: nat)
    requires WellFormed(h) && k <= |h.lines|
    ensures Strips(WireLines(h, k), Lines(h, k))
  {
    if k == 0 {
      StripLine(h.status);
    } else {
      StripLines(h, k - 1);
      assert Pick(k - 1);
      StripNext(WireLines(h, k - 1), Lines(h, k - 1), h.lines[k - 1], WireLines(h, k), Lines(h, k));
    }
  }

  lemma StripWire(h: Head)
    requires WellFormed(h)
    ensures Strips(Wire(h), Text(h))
  {
    StripLines(h, |h.lines|);
    StripEnd();
    StripSum(WireLines(h, |h.lines|), CRLF, Lines(h, |h.lines|), [LF]);
  }

  lemma StrippedBegins(wire: seq<byte>, body: seq<byte>, h: Head)
    requires Strips(wire, Text(h)) && wire != [] && wire[|wire| - 1] == LF
    ensures BeginsWith(wire + body, |wire|, h)
  {
    StripFront(wire, body, |wire|);
  }

  /** A head in the form in which it is sent, with anything behind it, is what the reader is made for. */
  lemma WireBegins(h: Head, body: seq<byte>)
    requires WellFormed(h)
    ensures BeginsWith(Wire(h) + body, |Wire(h)|, h)
  {
    StripWire(h);
    StrippedBegins(Wire(h), body, h);
  }

  lemma {:induction false} StripPrefix(input: seq<byte>, m: nat, n: nat)
    requires m <= n <= |input|
    ensures StripCR(input, m) <= StripCR(input, n)
  {
    if m < n {
      StripPrefix(input, m, n - 1);
    }
  }

  /** Before the last byte of the head the reader is not through. */
  lemma NotThrough(input: seq<byte>, m: nat, n: nat, h: Head)
    requires WellFormed(h) && |Text(h)| < SIZE && BeginsWith(input, n, h) && m < n
    ensures !Through(input, m)
  {
    LinesBefore(input, m, n, h);
    var s, lines := StripCR(input, m), Lines(h, |h.lines|);
    LinesAlive(h, |h.lines|, lines);
    ScanSame(START, s, lines, |s|);
  }

  /** What was read before the end of the head is a beginning of its lines. */
  lemma LinesBefore(input: seq<byte>, m: nat, n: nat, h: Head)
    requires BeginsWith(input, n, h) && m < n
    ensures
      var s, lines := StripCR(input, m), Lines(h, |h.lines|);
      s <= lines && s[..|s|] == lines[..|s|]
  {
    StripPrefix(input, m, n - 1);
    var u, lines := StripCR(input, n - 1), Lines(h, |h.lines|);
    assert u + [LF] == lines + [LF];
    assert u == (u + [LF])[..|u|] && lines == (lines + [LF])[..|lines|];
  }

  lemma ThroughAtEnd(input: seq<byte>, n: nat, h: Head)
    requires WellFormed(h) && BeginsWith(input, n, h)
    ensures Through(input, n)
  {
    TextStops(h);
  }

  /** The reader stops where it is through for the first time. */
  lemma {:induction false} EndIsFirst(input: seq<byte>, m: nat, n: nat)
    requires m <= n <= |input| && Through(input, n) && forall i :: m <= i < n ==> !Through(input, i)
    ensures EndFrom(input, m) == n
    decreases n - m
  {
    if m < n {
      EndIsFirst(input, m + 1, n);
    }
  }

  lemma EndReached(input: seq<byte>, n: nat, h: Head)
    requires WellFormed(h) && |Text(h)| < SIZE && BeginsWith(input, n, h)
    ensures EndFrom(input, 0) == n
  {
    ThroughAtEnd(input, n, h);
    forall m | 0 <= m < n
      ensures !Through(input, m)
    {
      NotThrough(input, m, n, h);
    }
    EndIsFirst(input, 0, n);
  }

  /** The reader consumes exactly the head, whatever follows, and its tables are large enough. */
  lemma ReadsExactlyTheHead(input: seq<byte>, n: nat, h: Head)
    requires GoodHead(h) && BeginsWith(input, n, h)
    ensures EndFrom(input, 0) == n && |After(input, n).keys| <= SLOTS
    ensures After(input, n) == Scan(START, Text(h))
  {
    EndReached(input, n, h);
    TextStops(h);
  }

  lemma {:induction false} EndNoLater(input: seq<byte>, m: nat, n: nat)
    requires m <= n <= |input| && Through(input, n)
    ensures EndFrom(input, m) <= n
    decreases n - m
  {
    if m < n {
      EndNoLater(input, m + 1, n);
    }
  }

  /** On any input whatsoever. */
  lemma {:induction false} NotThroughBefore(input: seq<byte>, n: nat, m: nat)
    requires n <= |input| && n <= m < EndFrom(input, n)
    ensures !Through(input, m)
    decreases m - n
  {
    if n < m {
      NotThroughBefore(input, n + 1, m);
    }
  }

  /** A head longer than the buffer is cut short: the rest of it stays unread. */
  lemma LongHeadCut(input: seq<byte>, n: nat, h: Head)
    requires BeginsWith(input, n, h) && |Text(h)| >= SIZE
    ensures EndFrom(input, 0) < n
  {
    AfterNext(input, n - 1);
    EndNoLater(input, 0, n - 1);
  }

  /** The bounds are exact: a well-formed head is read to its end within the tables if and only if it fits. */
  lemma FitsExactly(input: seq<byte>, n: nat, h: Head)
    requires WellFormed(h) && BeginsWith(input, n, h)
    ensures
      EndFrom(input, 0) == n && |After(input, n).keys| <= SLOTS <==> Fits(h)
  {
    TextStops(h);
    if |Text(h)| < SIZE {
      EndReached(input, n, h);
    } else {
      LongHeadCut(input, n, h);
    }
  }

  // ---------- looking up ----------

  lemma {:induction false} StringIsC(buf: seq<byte>, at: nat, s: seq<byte>)
    requires Terminated(buf) && IsString(buf, at, s) && NUL !in s
    ensures CString(buf, at) == s
    decreases |s|
  {
    if s != [] {
      assert buf[at] == buf[at..at + |s|][0] == s[0];
      assert buf[at + 1..at + 1 + |s[1..]|] == s[1..];
      StringIsC(buf, at + 1, s[1..]);
    }
  }

  /** The finished tables with the whole buffer, whatever it holds behind the text. */
  function Finished(h: Head, rest: seq<byte>): (t: Table)
    ensures Shaped(t)
  {
    var t := Scan(START, Text(h));
    t.(buf := t.buf + rest)
  }

  /** What the blank line and the bytes behind it add to the tables of the lines. */
  lemma FinishedApart(h: Head, rest: seq<byte>)
    requires WellFormed(h)
    ensures
      var t0, t := TableOf(h, |h.lines|), Finished(h, rest);
      && t.buf == t0.buf + ([NUL] + rest)
      && t.keys == t0.keys + [|t0.buf| + 1] && t.values == t0.values + [NULLPTR]
  {
    TextStops(h);
    var t0 := TableOf(h, |h.lines|);
    assert (t0.buf + [NUL]) + rest == t0.buf + ([NUL] + rest);
  }

  lemma FinishedFound(h: Head, rest: seq<byte>, i: nat)
    requires WellFormed(h) && i < |h.lines|
    ensures Found(Finished(h, rest), i, h.lines[i]) && |Finished(h, rest).keys| == |h.lines| + 3
  {
    var n := |h.lines|;
    FinishedApart(h, rest);
    LinesFresh(h, n);
    LinesParsed(h, n, i);
    FoundStays(TableOf(h, n), Finished(h, rest), [NUL] + rest, i, h.lines[i]);
  }

  lemma FinishedBlank(h: Head, rest: seq<byte>)
    requires WellFormed(h)
    ensures
      var t, n := Finished(h, rest), |h.lines|;
      && |t.keys| == |t.values| == n + 3 && 0 <= t.keys[n + 1] < |t.buf| && t.buf[t.keys[n + 1]] == NUL
      && t.values[n + 1] == NULLPTR
  {
    FinishedApart(h, rest);
    LinesFresh(h, |h.lines|);
  }

  lemma StepBounded(t: Table, b: byte)
    requires Shaped(t) && Bounded(t)
    ensures Bounded(Step(t, b))
  {
  }

  lemma {:induction false} ScanBounded(text: seq<byte>, n: nat)
    requires n <= |text|
    ensures Bounded(ScanTo(START, text, n))
  {
    if n > 0 {
      ScanBounded(text, n - 1);
      StepBounded(ScanTo(START, text, n - 1), text[n - 1]);
    }
  }

  lemma ScanReadable(text: seq<byte>, rest: seq<byte>)
    requires Terminated(rest)
    ensures
      var t := Scan(START, text);
      Readable(t.(buf := t.buf + rest))
  {
    ScanBounded(text, |text|);
  }

  /** The key and the value of one line, read back as C strings. */
  lemma LineRead(t: Table, i: nat, l: Line)
    requires Readable(t) && GoodLine(l) && Found(t, i, l) && 0 <= t.keys[i + 2]
    ensures CString(t.buf, t.keys[i + 1]) == l.name
    ensures l.Bare? <==> t.values[i + 1] == NULLPTR
    ensures l.WithColon? && l.rest != [] ==> CString(t.buf, t.values[i + 1]) == l.rest[1..]
    ensures l.WithColon? && l.rest == [] ==> t.values[i + 1] == t.keys[i + 2]
  {
    StringIsC(t.buf, t.keys[i + 1], l.name);
    if l.WithColon? && l.rest != [] {
      StringIsC(t.buf, t.values[i + 1], l.rest[1..]);
    }
  }

  lemma NameRead(t: Table, i: nat, l: Line)
    requires Readable(t) && GoodLine(l) && Found(t, i, l) && 0 <= t.keys[i + 2]
    ensures CString(t.buf, t.keys[i + 1]) == l.name
  {
    LineRead(t, i, l);
  }

  /** A value that starts on the next line is the name of that line. */
  lemma NextLineRead(h: Head, rest: seq<byte>, i: nat)
    requires WellFormed(h) && Readable(Finished(h, rest)) && i < |h.lines|
    ensures
      var t := Finished(h, rest);
      && i + 3 < |t.keys|
      && CString(t.buf, t.keys[i + 2]) == if i + 1 < |h.lines| then h.lines[i + 1].name else []
  {
    FinishedBlank(h, rest);
    if i + 1 < |h.lines| {
      var t := FinishedLine(h, rest, i + 1);
      NameRead(t, i + 1, h.lines[i + 1]);
    }
  }

  /** The finished tables, and one of the lines in them. */
  lemma FinishedLine(h: Head, rest: seq<byte>, i: nat) returns (t: Table)
    requires WellFormed(h) && i < |h.lines|
    ensures t == Finished(h, rest) && Found(t, i, h.lines[i]) && GoodLine(h.lines[i])
    ensures i + 2 < |t.keys| && 0 <= t.keys[i + 2]
  {
    FinishedFound(h, rest, i);
    assert Pick(i);
    t := Finished(h, rest);
  }

  /** What the loop of `GetHeader` finds at line `i`. */
  lemma MeaningRead(h: Head, rest: seq<byte>, i: nat)
    requires WellFormed(h) && Readable(Finished(h, rest)) && i < |h.lines|
    ensures
      var t := Finished(h, rest);
      && i + 3 < |t.keys| && CString(t.buf, t.keys[i + 1]) == h.lines[i].name
      && Meaning(h.lines[i..])
         == if t.values[i + 1] == NULLPTR then NullPointer else ValueOf(CString(t.buf, t.values[i + 1]))
  {
    NextLineRead(h, rest, i);
    FinishedFound(h, rest, i);
    assert Pick(i);
    LineRead(Finished(h, rest), i, h.lines[i]);
  }

  /** Looking up in the finished tables, from line `i` on, is looking up in the lines. */
  lemma {:induction false} LookupFinds(h: Head, rest: seq<byte>, i: nat, key: seq<byte>)
    requires WellFormed(h) && Readable(Finished(h, rest)) && i <= |h.lines|
    ensures HeaderFrom(Finished(h, rest), i + 1, key) == LookUp(h.lines[i..], key)
    decreases |h.lines| - i
  {
    if i < |h.lines| {
      MeaningRead(h, rest, i);
      LookupFinds(h, rest, i + 1, key);
      assert h.lines[i..][1..] == h.lines[i + 1..];
    } else {
      FinishedBlank(h, rest);
      assert HeaderFrom(Finished(h, rest), i + 2, key) == Absent;
    }
  }

  /** A head that was read answers for its lines, whatever the buffer holds behind it. */
  lemma HeadUnderstood(input: seq<byte>, n: nat, h: Head, key: seq<byte>, rest: seq<byte>)
    requires GoodHead(h) && BeginsWith(input, n, h) && Terminated(rest)
    ensures
      var t := After(input, n);
      var t' := t.(buf := t.buf + rest);
      Readable(t') && HeaderFrom(t', 1, key) == LookUp(h.lines, key)
  {
    assert After(input, n) == Scan(START, Text(h)) by { ReadsExactlyTheHead(input, n, h); }
    ScanReadable(Text(h), rest);
    LookupFinds(h, rest, 0, key);
    assert h.lines[0..] == h.lines;
  }

  // ---------- what a lookup means ----------

  predicate FirstNamed(lines: seq<Line>, key: seq<byte>, k: nat) {
    k < |lines| && lines[k].name == key && forall j :: 0 <= j < k ==> lines[j].name != key
  }

  lemma {:induction false} LookUpFirst(lines: seq<Line>, key: seq<byte>, k: nat)
    requires FirstNamed(lines, key, k)
    ensures LookUp(lines, key) == Meaning(lines[k..])
  {
    if k > 0 {
      assert FirstNamed(lines[1..], key, k - 1);
      LookUpFirst(lines[1..], key, k - 1);
      assert lines[1..][k - 1..] == lines[k..];
    } else {
      assert lines[0..] == lines;
    }
  }

  lemma {:induction false} LookUpNone(lines: seq<Line>, key: seq<byte>)
    requires forall k :: 0 <= k < |lines| ==> lines[k].name != key
    ensures LookUp(lines, key) == if key == [] then NullPointer else Absent
  {
    if lines != [] {
      assert forall k :: 0 <= k < |lines[1..]| ==> lines[1..][k].name == lines[k + 1].name;
      LookUpNone(lines[1..], key);
    }
  }

  lemma {:induction false} FirstNamedExists(lines: seq<Line>, key: seq<byte>, k: nat)
    requires k < |lines| && lines[k].name == key
    ensures exists i: nat :: FirstNamed(lines, key, i)
  {
    if j: nat :| j < k && lines[j].name == key {
      FirstNamedExists(lines, key, j);
    } else {
      assert FirstNamed(lines, key, k);
    }
  }

  /** `GetHeader` follows a null pointer exactly for the empty name, which is that of the blank line, and for a name
      whose first line has no colon. */
  lemma NullExactly(h: Head, key: seq<byte>)
    requires WellFormed(h)
    ensures LookUp(h.lines, key) == NullPointer
            <==> key == [] || exists k: nat :: FirstNamed(h.lines, key, k) && h.lines[k].Bare?
  {
    if k: nat :| k < |h.lines| && h.lines[k].name == key {
      FirstNamedExists(h.lines, key, k);
      var i: nat :| FirstNamed(h.lines, key, i);
      LookUpFirst(h.lines, key, i);
      assert Pick(i);
      assert forall j: nat :: FirstNamed(h.lines, key, j) ==> j == i;
    } else {
      LookUpNone(h.lines, key);
    }
  }

  /** What a lookup gives, by the first line of that name: with a colon, what is behind the colon and one more byte,
      where an empty value counts as none and a line that ends with its colon takes the name of the next line. */
  lemma LookUpExactly(h: Head, key: seq<byte>, k: nat)
    requires WellFormed(h) && key != [] && FirstNamed(h.lines, key, k)
    ensures
      LookUp(h.lines, key) ==
      match h.lines[k]
      case Bare(_) => NullPointer
      case WithColon(_, rest) =>
        if |rest| > 1 then Present(rest[1..])
        else if |rest| == 1 || k + 1 == |h.lines| then Absent
        else Present(h.lines[k + 1].name)
  {
    LookUpFirst(h.lines, key, k);
    assert Pick(k) && Pick(k + 1);
  }

  /** A line that is a name and nothing else. */
  lemma NullExample()
    ensures
      var h := Head([], [Bare([88])]);
      GoodHead(h) && LookUp(h.lines, [88]) == NullPointer
  {
    var h := Head([], [Bare([88])]);
    assert Lines(h, 0) == [LF] && Lines(h, 1) == [LF, 88, LF];
  }

  /** With nothing behind the colon, not even a space, the value is taken from the next line: its name, or none at the
      end of the head. */
  lemma EmptyValueReadsOn(h: Head, k: nat)
    requires WellFormed(h) && k < |h.lines| && h.lines[k].WithColon? && h.lines[k].rest == []
    requires FirstNamed(h.lines, h.lines[k].name, k)
    ensures LookUp(h.lines, h.lines[k].name)
            == if k + 1 < |h.lines| then Present(h.lines[k + 1].name) else Absent
  {
    LookUpFirst(h.lines, h.lines[k].name, k);
    assert Pick(k + 1);
  }

  /** A field line: a colon, one space and a value. */
  predicate Field(l: Line) {
    l.WithColon? && |l.rest| > 1 && l.rest[0] == SPACE
  }

  /** In a head of field lines every name finds the value of its first line, later colons included, and only names
      that do not occur find nothing. */
  lemma FieldsFound(h: Head, key: seq<byte>)
    requires WellFormed(h) && key != [] && forall i :: 0 <= i < |h.lines| ==> Field(h.lines[i])
    ensures forall k: nat :: FirstNamed(h.lines, key, k) ==>
              Field(h.lines[k]) && LookUp(h.lines, key) == Present(h.lines[k].rest[1..])
    ensures LookUp(h.lines, key) == Absent <==> forall k :: 0 <= k < |h.lines| ==> h.lines[k].name != key
  {
    if k: nat :| k < |h.lines| && h.lines[k].name == key {
      FirstNamedExists(h.lines, key, k);
      var i: nat :| FirstNamed(h.lines, key, i);
      LookUpFirst(h.lines, key, i);
      assert Field(h.lines[i]);
      assert forall j: nat :: FirstNamed(h.lines, key, j) ==> j == i;
    } else {
      LookUpNone(h.lines, key);
    }
  }
}

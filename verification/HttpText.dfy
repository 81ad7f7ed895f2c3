/** Response heads as text, and what the reader makes of a text, byte by byte. */
module HttpText {

  newtype byte = b: int | 0 <= b < 256

  const NUL: byte := 0
  const LF: byte := 10
  const CR: byte := 13
  const SPACE: byte := 32
  const COLON: byte := 58

  const SIZE := 1024
  const SLOTS := 32
  const NULLPTR := -1

  /** Those of the first `n` bytes that stay in the buffer. */
  function StripCR(input: seq<byte>, n: nat): seq<byte>
    requires n <= |input|
  {
    if n == 0 then []
    else StripCR(input, n - 1) + (if input[n - 1] == CR then [] else [input[n - 1]])
  }

  /** The buffer so far and both tables; entry `i` of the tables belongs to line `i`, the last one to the line that
      is still open. Positions are offsets into the buffer. */
  datatype Table = Table(buf: seq<byte>, keys: seq<int>, values: seq<int>)

  predicate Shaped(t: Table) {
    match t
    case Table(buf, keys, values) =>
      |keys| == |values| > 0 && forall i :: 1 <= i < |keys| ==> 0 <= keys[i] <= |buf|
  }

  const START := Table([], [NULLPTR], [NULLPTR])

  /** Every value starts behind its colon: no further than the buffer reaches, for a line that is closed. */
  predicate Bounded(t: Table) {
    match t
    case Table(buf, _, values) =>
      forall i :: 0 <= i < |values| ==>
        values[i] == NULLPTR || 0 <= values[i] <= |buf| + (if i == |values| - 1 then 1 else 0)
  }

  function Step(t: Table, b: byte): (r: Table)
    requires Shaped(t)
    ensures Shaped(r) && |r.buf| == |t.buf| + 1 && |t.keys| <= |r.keys|
  {
    var last := |t.values| - 1;
    if b == LF then Table(t.buf + [NUL], t.keys + [|t.buf| + 1], t.values + [NULLPTR])
    else if b == COLON && t.values[last] == NULLPTR then
      Table(t.buf + [NUL], t.keys, t.values[last := |t.buf| + 2])
    else t.(buf := t.buf + [b])
  }

  /** What the first `n` bytes of a text make of a table. */
  function ScanTo(t: Table, text: seq<byte>, n: nat): (r: Table)
    requires Shaped(t) && n <= |text|
    ensures Shaped(r) && |r.buf| == |t.buf| + n && |t.keys| <= |r.keys|
  {
    if n == 0 then t else Step(ScanTo(t, text, n - 1), text[n - 1])
  }

  function Scan(t: Table, text: seq<byte>): (r: Table)
    requires Shaped(t)
    ensures Shaped(r)
  {
    ScanTo(t, text, |text|)
  }

  lemma {:induction false} ScanSame(t: Table, a: seq<byte>, b: seq<byte>, n: nat)
    requires Shaped(t) && n <= |a| && n <= |b| && a[..n] == b[..n]
    ensures ScanTo(t, a, n) == ScanTo(t, b, n)
  {
    if n > 0 {
      assert a[..n - 1] == a[..n][..n - 1] && b[..n - 1] == b[..n][..n - 1];
      assert a[n - 1] == a[..n][n - 1] && b[n - 1] == b[..n][n - 1];
      ScanSame(t, a, b, n - 1);
    }
  }

  /** The line that was closed last is not the status line, and starts with a NUL. */
  predicate Stopped(t: Table)
    requires Shaped(t)
  {
    var n := |t.keys| - 1;
    n > 1 && (t.keys[n - 1] < |t.buf| ==> t.buf[t.keys[n - 1]] == NUL)
  }

  /** What the first `n` bytes of the input leave behind. */
  function After(input: seq<byte>, n: nat): (t: Table)
    requires n <= |input|
    ensures Shaped(t)
  {
    Scan(START, StripCR(input, n))
  }

  /** The reader is through: the head is complete, the buffer is full, or the input has ended. */
  predicate Through(input: seq<byte>, n: nat)
    requires n <= |input|
  {
    n == |input| || |StripCR(input, n)| >= SIZE - 1 || Stopped(After(input, n))
  }

  /** How far the reader gets from `n` on. */
  function EndFrom(input: seq<byte>, n: nat): (e: nat)
    requires n <= |input|
    ensures n <= e <= |input| && Through(input, e)
    decreases |input| - n
  {
    if Through(input, n) then n else EndFrom(input, n + 1)
  }

  lemma AfterNext(input: seq<byte>, n: nat)
    requires n < |input|
    ensures
      var b := input[n];
      && StripCR(input, n + 1) == StripCR(input, n) + (if b == CR then [] else [b])
      && After(input, n + 1) == if b == CR then After(input, n) else Step(After(input, n), b)
  {
    var s, b := StripCR(input, n), input[n];
    if b == CR {
      assert s + [] == s;
    } else {
      assert (s + [b])[..|s|] == s;
      ScanSame(START, s + [b], s, |s|);
    }
  }

  lemma {:induction false} LinesGrow(input: seq<byte>, n: nat, m: nat)
    requires n <= m <= |input|
    ensures |After(input, n).keys| <= |After(input, m).keys|
  {
    if n < m {
      LinesGrow(input, n, m - 1);
      AfterNext(input, m - 1);
    }
  }

  // ---------- heads ----------

  /** A line of a head after the status line. What follows the colon is usually a space and the value. */
  datatype Line = Bare(name: seq<byte>) | WithColon(name: seq<byte>, rest: seq<byte>)

  datatype Head = Head(status: seq<byte>, lines: seq<Line>)

  predicate Clean(s: seq<byte>) {
    forall i :: 0 <= i < |s| ==> s[i] != LF && s[i] != CR && s[i] != NUL
  }

  predicate GoodName(name: seq<byte>) {
    |name| > 0 && Clean(name) && COLON !in name
  }

  predicate GoodLine(l: Line) {
    match l
    case Bare(name) => GoodName(name)
    case WithColon(name, rest) => GoodName(name) && Clean(rest)
  }

  /** Names a line whose form is of interest; without it no line is unfolded. */
  predicate Pick(i: nat) {
    true
  }

  ghost predicate WellFormed(h: Head) {
    && GoodStatus(h.status)
    && (forall i: nat {:trigger Pick(i)} :: Pick(i) && i < |h.lines| ==> GoodLine(h.lines[i]))
  }

  predicate GoodStatus(s: seq<byte>) {
    forall i :: 0 <= i < |s| ==> s[i] != LF && s[i] != CR
  }

  /** The buffer and the tables are large enough for this head. */
  predicate Fits(h: Head) {
    |h.lines| <= SLOTS - 3 && |Text(h)| < SIZE
  }

  ghost predicate GoodHead(h: Head) {
    WellFormed(h) && Fits(h)
  }

  /** One line; the carriage return is not stored. */
  function LineText(l: Line): seq<byte> {
    match l
    case Bare(name) => name + [LF]
    case WithColon(name, rest) => (name + [COLON]) + (rest + [LF])
  }

  /** The status line and the first `k` lines. */
  function Lines(h: Head, k: nat): seq<byte>
    requires k <= |h.lines|
  {
    if k == 0 then h.status + [LF] else Lines(h, k - 1) + LineText(h.lines[k - 1])
  }

  /** A whole head, up to and including the blank line. */
  function Text(h: Head): seq<byte> {
    Lines(h, |h.lines|) + [LF]
  }

  const CRLF := [CR, LF]

  /** The bytes of a line, without its end. */
  function Written(l: Line): seq<byte> {
    if l.Bare? then l.name else l.name + [COLON] + l.rest
  }

  /** The status line and the first `k` lines as they are sent, each with its carriage return. */
  function WireLines(h: Head, k: nat): seq<byte>
    requires k <= |h.lines|
  {
    if k == 0 then h.status + CRLF else WireLines(h, k - 1) + (Written(h.lines[k - 1]) + CRLF)
  }

  function Wire(h: Head): seq<byte> {
    WireLines(h, |h.lines|) + CRLF
  }

  // ---------- looking up ----------

  /** `NullPointer` stands for following a null pointer. */
  datatype Lookup = Absent | Present(value: seq<byte>) | NullPointer

  predicate Terminated(buf: seq<byte>) {
    buf != [] && buf[|buf| - 1] == NUL
  }

  /** The C string at position `at`: up to the first NUL. */
  function CString(buf: seq<byte>, at: nat): seq<byte>
    requires Terminated(buf) && at < |buf|
    decreases |buf| - at
  {
    if buf[at] == NUL then [] else [buf[at]] + CString(buf, at + 1)
  }

  /** The keys of all closed lines, and their values if they have one, lie within the buffer. */
  predicate Readable(t: Table) {
    && Terminated(t.buf) && |t.keys| == |t.values|
    && forall i :: 1 <= i < |t.keys| - 1 ==>
         0 <= t.keys[i] < |t.buf| && (t.values[i] == NULLPTR || 0 <= t.values[i] < |t.buf|)
  }

  /** An empty value counts as none. */
  function ValueOf(value: seq<byte>): Lookup {
    if value == [] then Absent else Present(value)
  }

  /** The first of the closed lines from `i` on whose key is `key`. */
  function HeaderFrom(t: Table, i: nat, key: seq<byte>): Lookup
    requires Readable(t) && 1 <= i
    decreases |t.keys| - i
  {
    if i >= |t.keys| - 1 then Absent
    else if CString(t.buf, t.keys[i]) != key then HeaderFrom(t, i + 1, key)
    else if t.values[i] == NULLPTR then NullPointer
    else ValueOf(CString(t.buf, t.values[i]))
  }

  /** What looking up the name of the first of these lines gives. The value starts two behind the colon; if nothing is
      behind the colon, that is the start of the next line. */
  function Meaning(lines: seq<Line>): Lookup
    requires lines != []
  {
    match lines[0]
    case Bare(_) => NullPointer
    case WithColon(_, rest) =>
      if rest != [] then ValueOf(rest[1..])
      else if |lines| > 1 then ValueOf(lines[1].name)
      else Absent
  }

  /** What looking up `key` in these lines gives; the blank line has the empty name and no colon. */
  function LookUp(lines: seq<Line>, key: seq<byte>): Lookup {
    if lines == [] then (if key == [] then NullPointer else Absent)
    else if lines[0].name == key then Meaning(lines)
    else LookUp(lines[1..], key)
  }
}

/** The response loop of the HTTP client: byte by byte, in place, over a fixed buffer and two tables of pointers. */
module HttpReader {
  import opened HttpText
  import opened HttpParse

  class HttpClient {
    const buffer: array<byte>
    const keys: array<int>
    const values: array<int>
    var nvalues: nat

    constructor ()
      ensures fresh(buffer) && fresh(keys) && fresh(values) && Sized()
    {
      buffer := new byte[SIZE](_ => NUL);
      keys := new int[SLOTS](_ => NULLPTR);
      values := new int[SLOTS](_ => NULLPTR);
      nvalues := 0;
    }

    predicate Sized() {
      buffer.Length == SIZE && keys.Length == SLOTS && values.Length == SLOTS &&
      keys != values
    }

    /** The buffer and the tables hold `t`, and are clear behind it. */
    ghost predicate Holds(t: Table)
      reads this, buffer, keys, values
    {
      && Sized() && Shaped(t) && Bounded(t) && nvalues == |t.keys| - 1 < SLOTS && |t.buf| < SIZE
      && buffer[..|t.buf|] == t.buf && keys[..nvalues + 1] == t.keys && values[..nvalues + 1] == t.values
      && (forall i :: nvalues < i < SLOTS ==> values[i] == NULLPTR) && buffer[SIZE - 1] == NUL
    }

    method Clear()
      requires Sized()
      modifies this, buffer, keys, values
      ensures Holds(START)
    {
      forall i | 0 <= i < SIZE { buffer[i] := NUL; }
      forall i | 0 <= i < SLOTS { keys[i] := NULLPTR; }
      forall i | 0 <= i < SLOTS { values[i] := NULLPTR; }
      nvalues := 0;
    }

    /** The switch on the byte just read to position `p`; the result is `p`, or one less for a carriage return. */
    method Put(p: nat, ghost t: Table) returns (p': int)
      requires Holds(t) && p == |t.buf| < SIZE - 1
      requires buffer[p] == LF ==> nvalues + 1 < SLOTS
      modifies this, buffer, keys, values
      ensures
        var b := old(buffer[p]);
        Holds(if b == CR then t else Step(t, b)) && p' == if b == CR then p - 1 else p
    {
      p' := p;
      var b := buffer[p];
      StepBounded(t, b);
      ghost var last := nvalues;
      if b == LF {
        buffer[p] := NUL;
        nvalues := nvalues + 1;
        keys[nvalues] := p + 1;
      } else if b == COLON {
        if values[nvalues] == NULLPTR {
          buffer[p] := NUL;
          values[nvalues] := p + 2;
        }
      } else if b == CR {
        p' := p - 1;
      }
    }

    /** One turn of the loop: the byte `b` is stored at `p` and looked at. */
    method Turn(b: byte, p: nat, ghost t: Table) returns (p': int, stop: bool)
      requires Holds(t) && p == |t.buf| < SIZE - 1 && !Stopped(t)
      requires b == LF ==> nvalues + 1 < SLOTS
      modifies this, buffer, keys, values
      ensures
        var t' := if b == CR then t else Step(t, b);
        Holds(t') && (stop <==> Stopped(t')) && (!stop ==> p' == |t'.buf|)
    {
      buffer[p] := b;
      p' := Put(p, t);
      stop := false;
      if nvalues > 1 {
        ghost var t' := if b == CR then t else Step(t, b);
        assert keys[nvalues - 1] == t'.keys[nvalues - 1];
        stop := buffer[keys[nvalues - 1]] == NUL;
      }
      if !stop {
        p' := p' + 1;
      }
    }

    /** A line end too many: the tables would have to grow. */
    lemma NoRoom(input: seq<byte>, n: nat)
      requires n < |input| && input[n] == LF && |After(input, n).keys| == SLOTS && !Through(input, n)
      ensures |After(input, EndFrom(input, n)).keys| > SLOTS
    {
      AfterNext(input, n);
      LinesGrow(input, n + 1, EndFrom(input, n));
    }

    /** Reads a response from `input` until the head is complete, the buffer is full or the input has ended; returns
        the number of bytes read. `overrun`: a line end for which the tables have no room left; there the source writes
        behind them. */
    method ReadHead(input: seq<byte>) returns (consumed: nat, overrun: bool)
      requires Sized()
      modifies this, buffer, keys, values
      ensures overrun <==> |After(input, EndFrom(input, 0)).keys| > SLOTS
      ensures !overrun ==> consumed == EndFrom(input, 0) && Holds(After(input, consumed))
    {
      Clear();
      consumed, overrun := 0, false;
      var p: int, stop := 0, false;
      ghost var t := START;
      while !stop && p < SIZE - 1 && consumed < |input|
        invariant consumed <= |input| && t == After(input, consumed) && Holds(t)
        invariant !stop ==> p == |t.buf|
        invariant stop <==> Stopped(t)
        invariant EndFrom(input, consumed) == EndFrom(input, 0)
        decreases |input| - consumed
      {
        if input[consumed] == LF && nvalues + 1 == SLOTS {
          NoRoom(input, consumed);
          return consumed, true;
        }
        AfterNext(input, consumed);
        p, stop := Turn(input[consumed], p, t);
        t := After(input, consumed + 1);
        consumed := consumed + 1;
      }
    }

    /** The tables with everything the buffer holds, read or not. */
    ghost function Memory(t: Table): (r: Table)
      requires Holds(t)
      reads this, buffer, keys, values
      ensures Readable(r)
    {
      t.(buf := buffer[..])
    }

    /** GetHeader; strcmp compares the C strings. */
    method GetHeader(key: seq<byte>, ghost t: Table) returns (r: Lookup)
      requires Holds(t)
      ensures r == HeaderFrom(Memory(t), 1, key)
    {
      var i := 1;
      while i < nvalues
        invariant 1 <= i && HeaderFrom(Memory(t), i, key) == HeaderFrom(Memory(t), 1, key)
      {
        assert keys[i] == t.keys[i] && values[i] == t.values[i];
        if CString(buffer[..], keys[i]) == key {
          if values[i] == NULLPTR {
            return NullPointer;
          }
          return ValueOf(CString(buffer[..], values[i]));
        }
        i := i + 1;
      }
      return Absent;
    }

    lemma AnswersFromHead(input: seq<byte>, n: nat, h: Head, key: seq<byte>)
      requires GoodHead(h) && BeginsWith(input, n, h) && Holds(After(input, n))
      ensures HeaderFrom(Memory(After(input, n)), 1, key) == LookUp(h.lines, key)
    {
      var t := After(input, n);
      var rest := buffer[|t.buf|..];
      assert rest[|rest| - 1] == buffer[SIZE - 1];
      HeadUnderstood(input, n, h, key, rest);
      assert Memory(t) == t.(buf := t.buf + rest);
    }

    /** For every well-formed head that fits, at the start of the input, with carriage returns anywhere in it and any
        bytes behind it: exactly the head is consumed, and a header is found by its first line. */
    method ReadAndFind(input: seq<byte>, key: seq<byte>, ghost n: nat, ghost h: Head)
      returns (consumed: nat, overrun: bool, r: Lookup)
      requires Sized() && GoodHead(h) && BeginsWith(input, n, h)
      modifies this, buffer, keys, values
      ensures !overrun && consumed == n && r == LookUp(h.lines, key)
    {
      ReadsExactlyTheHead(input, n, h);
      consumed, overrun := ReadHead(input);
      AnswersFromHead(input, n, h, key);
      r := GetHeader(key, After(input, n));
    }
  }
}

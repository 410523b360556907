/** The byte streams under the codec: securepath/serialisation/octet_vector_stream.cpp
    and securepath/serialisation/codec/asn_der/buffered_stream.hpp. */
module OctetStream {
  import opened Octets

  /** octet_span_istream: a short read fails and exhausts the stream. */
  class SpanStream {
    const data: seq<octet>
    var readPos: nat

    ghost predicate Valid()
      reads this
    {
      readPos <= |data|
    }

    constructor (data: seq<octet>)
      ensures Valid() && this.data == data && readPos == 0
    {
      this.data := data;
      readPos := 0;
    }

    method Read(size: nat) returns (ok: bool, bytes: seq<octet>)
      requires Valid() && size > 0
      modifies this
      ensures Valid()
      ensures ok <==> old(readPos) + size <= |data|
      ensures ok ==> readPos == old(readPos) + size && bytes == data[old(readPos)..readPos]
      ensures !ok ==> readPos == |data| && bytes == []
    {
      ok := readPos + size <= |data|;
      if ok {
        bytes := data[readPos..readPos + size];
        readPos := readPos + size;
      } else {
        bytes := [];
        readPos := |data|;
      }
    }
  }

  /** The vector after writing bytes at pos: grown with zeros up to pos, overwritten,
      grown again past the old end. */
  function Overwritten(vec: seq<octet>, pos: nat, bytes: seq<octet>): (r: seq<octet>)
    ensures bytes != [] ==> |r| >= pos + |bytes| && r[pos..pos + |bytes|] == bytes
    ensures pos == |vec| ==> r == vec + bytes
  {
    if bytes == [] then vec else
      var v := if pos > |vec| then vec + seq(pos - |vec|, _ => 0) else vec;
      v[..pos] + bytes + (if pos + |bytes| < |v| then v[pos + |bytes|..] else [])
  }

  /** octet_vector_ostream. */
  class VectorSink {
    var vec: seq<octet>
    var writePos: nat

    constructor (vec: seq<octet>, writePos: nat)
      ensures this.vec == vec && this.writePos == writePos
    {
      this.vec := vec;
      this.writePos := writePos;
    }

    method Write(bytes: seq<octet>)
      modifies this
      ensures vec == Overwritten(old(vec), old(writePos), bytes)
      ensures writePos == old(writePos) + |bytes|
    {
      if bytes != [] {
        if writePos > |vec| {
          vec := vec + seq(writePos - |vec|, _ => 0);
        }
        ghost var grown := vec;
        var left := |vec| - writePos;
        if left < |bytes| {
          vec := vec + seq(|bytes| - left, _ => 0);
        }
        assert vec[..writePos] == grown[..writePos];
        vec := vec[..writePos] + bytes + vec[writePos + |bytes|..];
        writePos := writePos + |bytes|;
      }
    }
  }

  /** The cursor a buffered stream stands for: a position and the positions that the
      open peeks will return to, outermost first. */
  datatype Cursor = Cursor(pos: nat, marks: seq<nat>) {
    function Advance(n: nat): Cursor {
      this.(pos := pos + n)
    }

    function Mark(): Cursor {
      this.(marks := marks + [pos])
    }

    function Release(commit: bool): Cursor
      requires marks != []
    {
      Cursor(if commit then pos else marks[|marks| - 1], marks[..|marks| - 1])
    }
  }

  lemma SubSlice(buffer: seq<octet>, data: seq<octet>, b: nat, x: nat, from: nat, to: nat)
    requires b <= from <= to <= |buffer| && x + |buffer| - b <= |data|
    requires buffer[b..] == data[x..x + |buffer| - b]
    ensures buffer[from..to] == data[x + from - b..x + to - b]
  {
    forall i | 0 <= i < to - from
      ensures buffer[from..to][i] == data[x + from - b..x + to - b][i]
    {
      assert buffer[b..][from - b + i] == data[x..x + |buffer| - b][from - b + i];
    }
  }

  lemma ExtendSlice(buffer: seq<octet>, more: seq<octet>, data: seq<octet>, b: nat, x: nat)
    requires b <= |buffer| && x + |buffer| - b + |more| <= |data|
    requires buffer[b..] == data[x..x + |buffer| - b]
    requires more == data[x + |buffer| - b..x + |buffer| - b + |more|]
    ensures (buffer + more)[b..] == data[x..x + |buffer| + |more| - b]
  {
    assert (buffer + more)[b..] == buffer[b..] + more;
  }

  class BufferedStream {
    const stream: SpanStream
    var buffer: seq<octet>
    var lookAhead: nat
    var realPos: nat
    var peekCount: nat
    /** Positions the open peeks return to, outermost first. */
    ghost var marks: seq<nat>

    /** Octets of the buffer before this position may be stale: a committed peek leaves
        octets behind that later direct reads do not replace. */
    ghost function Base(): nat
      reads this
    {
      if marks == [] then Pos() else marks[0]
    }

    ghost predicate Valid()
      reads this, stream
    {
      && stream.Valid()
      && lookAhead <= |buffer|
      && realPos + |buffer| == stream.readPos
      && peekCount == |marks|
      && realPos <= Base()
      && (forall i :: 0 <= i < |marks| ==> Base() <= marks[i] <= Pos())
      && buffer[Base() - realPos..] == stream.data[Base()..stream.readPos]
    }

    /** Inner peeks began no earlier than outer ones. */
    ghost predicate Nested()
      reads this
    {
      forall i, j :: 0 <= i < j < |marks| ==> marks[i] <= marks[j]
    }

    ghost function View(): Cursor
      reads this
    {
      Cursor(Pos(), marks)
    }

    /** The open peeks: where they return to, and the buffer offset of the innermost. */
    ghost function Peeks(): (seq<nat>, int)
      reads this
    {
      (marks, if marks == [] then 0 else marks[|marks| - 1] - realPos)
    }

    function Pos(): nat
      reads this
    {
      realPos + lookAhead
    }

    /** What even a failed read leaves, so that open peeks can be ended. */
    twostate predicate Anchored()
      reads this
    {
      && peekCount == old(peekCount) && marks == old(marks)
      && (peekCount > 0 ==> realPos == old(realPos))
    }

    predicate IsPeeking()
      reads this
    {
      peekCount > 0
    }

    constructor (stream: SpanStream)
      requires stream.Valid() && stream.readPos == 0
      ensures Valid() && Nested() && this.stream == stream && View() == Cursor(0, [])
    {
      this.stream := stream;
      buffer, lookAhead, realPos, peekCount, marks := [], 0, 0, 0, [];
    }

    /** Read s octets: those at the cursor. A short stream fails for good. */
    method Read(s: nat) returns (ok: bool, bytes: seq<octet>)
      requires Valid() && Nested()
      modifies this, stream
      ensures Anchored() && (!ok ==> stream.readPos == |stream.data|)
      ensures ok <==> old(Pos()) + s <= |stream.data|
      ensures ok ==> Valid() && Nested()
      ensures ok ==> View() == old(View()).Advance(s)
      ensures ok ==> Peeks() == old(Peeks())
      ensures ok ==> bytes == stream.data[old(Pos())..old(Pos()) + s]
    {
      hide BufferedStream.Valid, BufferedStream.Nested;
      bytes := ReadFromBuffer(s);
      ok := true;
      ghost var pos, at := old(Pos()), Pos();
      if |bytes| != s {
        var more;
        ok, more := ReadFromStream(s - |bytes|);
        if ok {
          assert stream.data[pos..at] + stream.data[at..pos + s] == stream.data[pos..pos + s];
        }
        bytes := bytes + more;
      }
    }

    method ReadFromBuffer(s: nat) returns (bytes: seq<octet>)
      requires Valid() && Nested()
      modifies this
      ensures Valid() && Nested()
      ensures Anchored() && Pos() <= stream.readPos <= |stream.data|
      ensures Peeks() == old(Peeks())
      ensures |bytes| <= s && View() == old(View()).Advance(|bytes|)
      ensures |bytes| < s ==> Pos() == stream.readPos
      ensures bytes == stream.data[old(Pos())..Pos()]
    {
      bytes := [];
      if lookAhead < |buffer| {
        var rs := if s <= |buffer| - lookAhead then s else |buffer| - lookAhead;
        bytes := Take(rs);
        if !IsPeeking() && lookAhead == |buffer| {
          DropConsumed();
        }
      }
    }

    lemma TakeSlices(rs: nat)
      requires Valid() && Nested() && lookAhead + rs <= |buffer|
      ensures buffer[lookAhead..lookAhead + rs] == stream.data[Pos()..Pos() + rs]
      ensures buffer[lookAhead + rs..] == stream.data[Pos() + rs..stream.readPos]
    {
      SubSlice(buffer, stream.data, Base() - realPos, Base(), lookAhead, lookAhead + rs);
      SubSlice(buffer, stream.data, Base() - realPos, Base(), lookAhead + rs, |buffer|);
    }

    method Take(rs: nat) returns (bytes: seq<octet>)
      requires Valid() && Nested() && lookAhead + rs <= |buffer|
      modifies this`lookAhead
      ensures Valid() && Nested() && lookAhead == old(lookAhead) + rs && |bytes| == rs
      ensures bytes == stream.data[old(Pos())..Pos()]
    {
      TakeSlices(rs);
      bytes := buffer[lookAhead..lookAhead + rs];
      lookAhead := lookAhead + rs;
    }

    method DropConsumed()
      requires Valid() && Nested() && peekCount == 0 && lookAhead == |buffer|
      modifies this`realPos, this`lookAhead, this`buffer
      ensures Valid() && Nested() && View() == old(View()) && Pos() == stream.readPos
    {
      realPos := realPos + lookAhead;
      lookAhead := 0;
      buffer := [];
    }

    method ReadFromStream(s: nat) returns (ok: bool, bytes: seq<octet>)
      requires Valid() && Nested() && Pos() == stream.readPos && s > 0
      modifies this, stream
      ensures Anchored() && (!ok ==> stream.readPos == |stream.data|)
      ensures ok <==> old(Pos()) + s <= |stream.data|
      ensures ok ==> Valid() && Nested()
      ensures ok ==> View() == old(View()).Advance(s)
      ensures ok ==> Peeks() == old(Peeks())
      ensures ok ==> bytes == stream.data[old(Pos())..old(Pos()) + s]
    {
      ok, bytes := stream.Read(s);
      if ok {
        if IsPeeking() {
          Remember(bytes);
        } else {
          realPos := realPos + s;
        }
      }
    }

    /** Octets read under a peek stay in the buffer. */
    method Remember(bytes: seq<octet>)
      requires lookAhead == |buffer| && peekCount == |marks| > 0 && Nested()
      requires stream.Valid() && realPos + |buffer| + |bytes| == stream.readPos
      requires realPos <= Base() <= Pos() && forall i :: 0 <= i < |marks| ==> Base() <= marks[i] <= Pos()
      requires buffer[Base() - realPos..] == stream.data[Base()..Pos()]
      requires bytes == stream.data[Pos()..stream.readPos]
      modifies this`buffer, this`lookAhead
      ensures Valid() && Nested()
      ensures buffer == old(buffer) + bytes && lookAhead == old(lookAhead) + |bytes|
    {
      ExtendSlice(buffer, bytes, stream.data, Base() - realPos, Base());
      buffer := buffer + bytes;
      lookAhead := lookAhead + |bytes|;
    }

    /** Can s octets be read? The cursor does not move. A negative answer loses whatever
        the stream still held; when it held nothing, nothing changes. */
    method ReadableBytes(s: nat) returns (ok: bool)
      requires Valid() && Nested()
      modifies this, stream
      ensures ok <==> old(Pos()) + s <= |stream.data|
      ensures Anchored() && (!ok ==> stream.readPos == |stream.data|)
      ensures Pos() == old(Pos())
      ensures ok || old(stream.readPos) == |stream.data| ==>
        Valid() && Nested() && View() == old(View()) && Peeks() == old(Peeks())
    {
      var buffered := 0;
      if lookAhead < |buffer| {
        buffered := |buffer| - lookAhead;
      }
      if buffered >= s {
        return true;
      }
      var more;
      ok, more := stream.Read(s - buffered);
      if ok {
        ExtendSlice(buffer, more, stream.data, Base() - realPos, Base());
        buffer := buffer + more;
      }
    }

    method StartPeek() returns (token: nat)
      requires Valid() && Nested()
      modifies this
      ensures Valid() && Nested() && realPos == old(realPos)
      ensures View() == old(View()).Mark() && Peeks().1 == token
      ensures peekCount == |marks| && peekCount == old(peekCount) + 1
    {
      peekCount := peekCount + 1;
      token := lookAhead;
      marks := marks + [realPos + token];
    }

    /** Where the innermost peek ends, the buffer holds the stream's octets. */
    lemma FromHereOn(token: nat, commit: bool)
      requires Valid() && Nested() && marks != [] && Peeks().1 == token
      ensures var keep := if commit then lookAhead else token;
        && Base() - realPos <= keep <= lookAhead
        && buffer[keep..] == stream.data[realPos + keep..stream.readPos]
    {
      SubSlice(buffer, stream.data, Base() - realPos, Base(), if commit then lookAhead else token, |buffer|);
    }

    /** Close the innermost peek: stay, or go back to where it began. After a failed read
        that still gives the position back. */
    method EndPeek(token: nat, commit: bool)
      requires peekCount == |marks| > 0
      modifies this`lookAhead, this`peekCount, this`marks
      ensures peekCount == |marks| && marks == old(marks[..|marks| - 1])
      ensures lookAhead == if commit then old(lookAhead) else token
      ensures old(Valid() && Nested() && Peeks().1 == token) ==>
        Valid() && Nested() && View() == old(View()).Release(commit)
    {
      if Valid() && Nested() && Peeks().1 == token {
        FromHereOn(token, commit);
      }
      peekCount := peekCount - 1;
      if !commit {
        lookAhead := token;
      }
      marks := marks[..|marks| - 1];
    }
  }
}

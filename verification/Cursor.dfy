/** The bit cursor of the chunk walker. Every method is proved against the format it reads. */
module Cursor {
  import opened Bits
  import opened Format

  datatype Result<+T> = Success(value: T) | Failure(error: Error) {
    predicate IsFailure() {
      Failure?
    }
    function PropagateFailure<U>(): Result<U>
      requires Failure?
    {
      Failure(error)
    }
    function Extract(): T
      requires Success?
    {
      value
    }
  }

  /** A reader's result and its new position say the same as a parse. */
  predicate Agrees<T(==)>(r: Result<T>, pos: nat, parse: Parse<T>) {
    match parse
    case Ok(v, q) => r == Success(v) && pos == q
    case Fail(e) => r == Failure(e)
  }

  /** A parse with its value forgotten. */
  function EndOf<T>(p: Parse<T>): Parse<()> {
    match p
    case Ok(_, q) => Ok((), q)
    case Fail(e) => Fail(e)
  }

  lemma {:induction false} ValueAppend(b: Bits, x: bool)
    ensures Value(b + [x]) == Value(b) + if x then Pow2(|b|) else 0
  {
    if b != [] {
      assert (b + [x])[1..] == b[1..] + [x];
      ValueAppend(b[1..], x);
    }
  }

  lemma ValueOfNothing()
    ensures Value([]) == 0
  {
  }

  class DeflateBitCursor {
    const data: seq<Byte>
    var bitPos: nat

    constructor (data: seq<Byte>)
      ensures this.data == data && bitPos == 0
    {
      this.data := data;
      bitPos := 0;
    }

    method EnsureBits(bits: nat) returns (r: Result<()>)
      ensures r == if bitPos + bits <= |BitsOf(data)| then Success(()) else Failure(Truncated)
    {
      if bitPos + bits > 8 * |data| {
        return Failure(Truncated);
      }
      return Success(());
    }

    method ReadBit() returns (r: Result<bool>)
      modifies this
      ensures if old(bitPos) < |BitsOf(data)| then r == Success(BitsOf(data)[old(bitPos)]) && bitPos == old(bitPos) + 1
              else r == Failure(Truncated)
    {
      hide Bit;
      var _ :- EnsureBits(1);
      var bit := BitAt(data, bitPos);
      bitPos := bitPos + 1;
      return Success(bit);
    }

    method ReadBits(bits: nat) returns (r: Result<nat>)
      modifies this
      ensures Agrees(r, bitPos, Format.ReadBits(BitsOf(data), old(bitPos), bits))
    {
      hide BitsOf, Value;
      ghost var s, p := BitsOf(data), bitPos;
      var value: nat, weight: nat := 0, 1;
      ValueOfNothing();
      for shift := 0 to bits
        invariant bitPos == p + shift && weight == Pow2(shift)
        invariant if shift == 0 then value == 0 else bitPos <= |s| && value == Value(s[p..bitPos])
      {
        var bit :- ReadBit();
        assert s[p..bitPos] == s[p..bitPos - 1] + [bit];
        assert shift == 0 ==> s[p..bitPos - 1] == [];
        ValueAppend(s[p..bitPos - 1], bit);
        value := value + if bit then weight else 0;
        weight := 2 * weight;
      }
      return Success(value);
    }

    method AlignToByte()
      modifies this
      ensures bitPos == Format.AlignToByte(old(bitPos))
    {
      bitPos := (bitPos + 7) / 8 * 8;
    }

    method SkipBits(bits: nat) returns (r: Result<()>)
      modifies this
      ensures if old(bitPos) + bits <= |BitsOf(data)| then r == Success(()) && bitPos == old(bitPos) + bits
              else r == Failure(Truncated)
    {
      var _ :- EnsureBits(bits);
      bitPos := bitPos + bits;
      return Success(());
    }
  }
}

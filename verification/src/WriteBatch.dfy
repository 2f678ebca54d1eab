/** db/write_batch.cc: batches of updates as the bytes that go to the log. */
module WriteBatches {
  import opened Bytes
  import opened Keys
  import opened Coding

  datatype Op = Put(key: seq<Byte>, value: seq<Byte>) | Delete(key: seq<Byte>)

  const HEADER: nat := 12
  const TYPE_DELETION: Byte := 0
  const TYPE_VALUE: Byte := 1

  /** What Iterate tells its caller. */
  datatype Status = Ok | TooSmall | BadPut | BadDelete | UnknownTag | WrongCount

  // ------------------------------------------------------------------ format

  predicate Fits(op: Op) {
    |op.key| < TWO_32 && (op.Put? ==> |op.value| < TWO_32)
  }

  function Encoded(op: Op): seq<Byte> {
    match op
    case Put(key, value) => [TYPE_VALUE] + LengthPrefixed(key) + LengthPrefixed(value)
    case Delete(key) => [TYPE_DELETION] + LengthPrefixed(key)
  }

  function Data(ops: seq<Op>): seq<Byte> {
    if ops == [] then [] else Data(ops[..|ops| - 1]) + Encoded(ops[|ops| - 1])
  }

  /** A batch holding `ops`, to be given sequence numbers from `sequence` on. */
  function Rep(sequence: nat, ops: seq<Op>): seq<Byte> {
    Fixed(sequence, 8) + Fixed(|ops|, 4) + Data(ops)
  }

  // ------------------------------------------------------------------ reading

  /** One record of the data: the operation, or what is wrong with it. */
  datatype Step = Operation(op: Op, rest: seq<Byte>) | Malformed(status: Status)

  function Decoded(input: seq<Byte>): Step
    requires input != []
  {
    if input[0] == TYPE_VALUE then
      match GetLengthPrefixed(input[1..])
      case Fail => Malformed(BadPut)
      case Got(key, rest) =>
        match GetLengthPrefixed(rest)
        case Fail => Malformed(BadPut)
        case Got(value, rest) => Operation(Put(key, value), rest)
    else if input[0] == TYPE_DELETION then
      match GetLengthPrefixed(input[1..])
      case Fail => Malformed(BadDelete)
      case Got(key, rest) => Operation(Delete(key), rest)
    else Malformed(UnknownTag)
  }

  lemma DecodedBack(op: Op, rest: seq<Byte>)
    requires Fits(op)
    ensures Decoded(Encoded(op) + rest) == Operation(op, rest)
  {
    hide LengthPrefixed, GetLengthPrefixed;
    match op
    case Put(key, value) =>
      TagFirst(TYPE_VALUE, LengthPrefixed(key), LengthPrefixed(value), rest);
      LengthPrefixedBack(key, LengthPrefixed(value) + rest);
      LengthPrefixedBack(value, rest);
    case Delete(key) =>
      TagFirst(TYPE_DELETION, LengthPrefixed(key), [], rest);
      assert [TYPE_DELETION] + LengthPrefixed(key) + [] == [TYPE_DELETION] + LengthPrefixed(key);
      assert [] + rest == rest;
      LengthPrefixedBack(key, rest);
  }

  lemma TagFirst(tag: Byte, a: seq<Byte>, b: seq<Byte>, rest: seq<Byte>)
    ensures [tag] + a + b + rest == [tag] + (a + (b + rest))
    ensures ([tag] + a + b + rest)[0] == tag && ([tag] + a + b + rest)[1..] == a + (b + rest)
  {}

  lemma DecodedShrinks(input: seq<Byte>)
    requires input != [] && Decoded(input).Operation?
    ensures |Decoded(input).rest| < |input|
  {
    LengthPrefixedShrinks(input[1..]);
    if input[0] == TYPE_VALUE {
      LengthPrefixedShrinks(GetLengthPrefixed(input[1..]).rest);
    }
  }

  /** The operations a handler is given, and how the iteration over the data ends. */
  function Handled(input: seq<Byte>): (seq<Op>, Status)
    decreases |input|
  {
    if input == [] then ([], Ok)
    else
      match Decoded(input)
      case Malformed(status) => ([], status)
      case Operation(op, rest) =>
        DecodedShrinks(input);
        var (ops, status) := Handled(rest);
        ([op] + ops, status)
  }

  lemma {:induction false} HandledBack(ops: seq<Op>, rest: seq<Byte>)
    requires forall op :: op in ops ==> Fits(op)
    ensures Handled(Data(ops) + rest) == (ops + Handled(rest).0, Handled(rest).1)
    decreases |ops|
  {
    hide Encoded, Decoded;
    if ops == [] {
      assert Data(ops) + rest == rest && ops + Handled(rest).0 == Handled(rest).0;
    } else {
      var front, last := ops[..|ops| - 1], ops[|ops| - 1];
      HandledBack(front, Encoded(last) + rest);
      HandledOne(last, rest);
      Assoc(Data(front), Encoded(last), rest);
      hide Handled;
      assert front + ([last] + Handled(rest).0) == ops + Handled(rest).0;
    }
  }

  lemma HandledOne(op: Op, rest: seq<Byte>)
    requires Fits(op)
    ensures Handled(Encoded(op) + rest) == ([op] + Handled(rest).0, Handled(rest).1)
  {
    DecodedBack(op, rest);
    assert Encoded(op) != [];
    hide Encoded, Decoded;
  }

  // -------------------------------------------------------------- the batch

  class WriteBatch {
    var rep: seq<Byte>
    ghost var ops: seq<Op>
    ghost var sequence: nat

    /** The bytes say what the batch holds. */
    ghost predicate Valid()
      reads this
    {
      && rep == Rep(sequence, ops) && sequence < TWO_64 && |ops| < TWO_32
      && forall op :: op in ops ==> Fits(op)
    }

    constructor ()
      ensures Valid() && ops == [] && sequence == 0
    {
      rep, ops, sequence := seq(HEADER, _ => 0), [], 0;
      new;
      EmptyRep();
    }

    function Count(): nat
      requires |rep| >= HEADER
      reads this
    {
      FixedValue(rep[8..HEADER])
    }

    function Sequence(): nat
      requires |rep| >= HEADER
      reads this
    {
      FixedValue(rep[..8])
    }

    method SetCount(n: nat)
      requires |rep| >= HEADER
      modifies this`rep
      ensures rep == old(rep[..8]) + Fixed(n, 4) + old(rep[HEADER..])
    {
      rep := rep[..8] + Fixed(n, 4) + rep[HEADER..];
    }

    method SetSequence(n: nat)
      requires Valid() && n < TWO_64
      modifies this
      ensures Valid() && sequence == n && ops == old(ops)
    {
      hide Rep, Data, Fixed, FixedValue, Encoded, LengthPrefixed;
      HeaderOf(sequence, ops);
      RepIsHeaderAndData(sequence, ops);
      rep := Fixed(n, 8) + rep[8..];
      sequence := n;
      RepIsHeaderAndData(n, ops);
    }

    method Put(key: seq<Byte>, value: seq<Byte>)
      requires Valid() && |ops| + 1 < TWO_32 && Fits(Op.Put(key, value))
      modifies this
      ensures Valid() && ops == old(ops) + [Op.Put(key, value)] && sequence == old(sequence)
    {
      hide Rep, Data, Fixed, FixedValue, Encoded, LengthPrefixed, Fits;
      HeaderOf(sequence, ops);
      SetCount(Count() + 1);
      ghost var counted := rep;
      rep := rep + [TYPE_VALUE];
      rep := rep + LengthPrefixed(key);
      rep := rep + LengthPrefixed(value);
      ops := ops + [Op.Put(key, value)];
      EncodedPut(counted, key, value);
      OneOperation(Op.Put(key, value));
      RepGrows(sequence, old(ops), [Op.Put(key, value)], counted);
    }

    method Delete(key: seq<Byte>)
      requires Valid() && |ops| + 1 < TWO_32 && Fits(Op.Delete(key))
      modifies this
      ensures Valid() && ops == old(ops) + [Op.Delete(key)] && sequence == old(sequence)
    {
      hide Rep, Data, Fixed, FixedValue, Encoded, LengthPrefixed, Fits;
      HeaderOf(sequence, ops);
      SetCount(Count() + 1);
      ghost var counted := rep;
      rep := rep + [TYPE_DELETION];
      rep := rep + LengthPrefixed(key);
      ops := ops + [Op.Delete(key)];
      EncodedDelete(counted, key);
      OneOperation(Op.Delete(key));
      RepGrows(sequence, old(ops), [Op.Delete(key)], counted);
    }

    /** Take over the operations of another batch, after one's own. */
    method Append(source: WriteBatch)
      requires source != this && Valid() && source.Valid() && |ops| + |source.ops| < TWO_32
      modifies this
      ensures Valid() && ops == old(ops) + source.ops && sequence == old(sequence)
    {
      hide Rep, Data, Fixed, FixedValue, Encoded, LengthPrefixed, Fits;
      HeaderOf(sequence, ops);
      HeaderOf(source.sequence, source.ops);
      SetCount(Count() + source.Count());
      ghost var counted := rep;
      rep := rep + source.rep[HEADER..];
      ops := ops + source.ops;
      RepGrows(sequence, old(ops), source.ops, counted);
    }

    /** Hand the operations to a handler, as far as the data is well formed. */
    method Iterate() returns (ops: seq<Op>, status: Status)
      ensures |rep| < HEADER ==> ops == [] && status == TooSmall
      ensures |rep| >= HEADER ==> ops == Handled(rep[HEADER..]).0
      ensures |rep| >= HEADER && Handled(rep[HEADER..]).1 != Ok ==> status == Handled(rep[HEADER..]).1
      ensures |rep| >= HEADER && Handled(rep[HEADER..]).1 == Ok ==> status == if |ops| == Count() then Ok else WrongCount
      ensures Valid() ==> ops == this.ops && status == Ok
    {
      hide GetLengthPrefixed, Rep, Data, FixedValue;
      if Valid() {
        HeaderOf(sequence, this.ops);
        BatchRoundTrip(this.ops);
      }
      ops := [];
      if |rep| < HEADER {
        return [], TooSmall;
      }
      var input, found := rep[HEADER..], 0;
      NothingBefore(Handled(input).0);
      while input != []
        invariant found == |ops|
        invariant Handled(rep[HEADER..]) == (ops + Handled(input).0, Handled(input).1)
        decreases |input|
      {
        found := found + 1;
        ghost var was := input;
        var tag := input[0];
        input := input[1..];
        if tag == TYPE_VALUE {
          match GetLengthPrefixed(input)
          case Fail => return ops, BadPut;
          case Got(key, rest) =>
            match GetLengthPrefixed(rest) {
              case Fail => return ops, BadPut;
              case Got(value, rest) =>
                DecodedShrinks(was);
                HandledStep(ops, was, Op.Put(key, value), rest);
                ops, input := ops + [Op.Put(key, value)], rest;
            }
        } else if tag == TYPE_DELETION {
          match GetLengthPrefixed(input)
          case Fail => return ops, BadDelete;
          case Got(key, rest) =>
            DecodedShrinks(was);
            HandledStep(ops, was, Op.Delete(key), rest);
            ops, input := ops + [Op.Delete(key)], rest;
        } else {
          return ops, UnknownTag;
        }
      }
      status := if found != Count() then WrongCount else Ok;
    }
  }

  lemma EncodedPut(a: seq<Byte>, key: seq<Byte>, value: seq<Byte>)
    ensures a + [TYPE_VALUE] + LengthPrefixed(key) + LengthPrefixed(value) == a + Encoded(Op.Put(key, value))
  {
    hide LengthPrefixed;
    Assoc(a, [TYPE_VALUE], LengthPrefixed(key));
    Assoc(a, [TYPE_VALUE] + LengthPrefixed(key), LengthPrefixed(value));
  }

  lemma EncodedDelete(a: seq<Byte>, key: seq<Byte>)
    ensures a + [TYPE_DELETION] + LengthPrefixed(key) == a + Encoded(Op.Delete(key))
  {
    hide LengthPrefixed;
    Assoc(a, [TYPE_DELETION], LengthPrefixed(key));
  }

  lemma RepIsHeaderAndData(sequence: nat, ops: seq<Op>)
    ensures Rep(sequence, ops) == Fixed(sequence, 8) + (Fixed(|ops|, 4) + Data(ops))
    ensures Rep(sequence, ops)[8..] == Fixed(|ops|, 4) + Data(ops)
  {
    hide Fixed, Data;
    Assoc(Fixed(sequence, 8), Fixed(|ops|, 4), Data(ops));
  }

  /** Counting operations in and appending their bytes is what a batch of them all looks like. */
  lemma RepGrows(sequence: nat, ops: seq<Op>, more: seq<Op>, counted: seq<Byte>)
    requires counted == Fixed(sequence, 8) + Fixed(|ops| + |more|, 4) + Data(ops)
    ensures counted + Data(more) == Rep(sequence, ops + more)
  {
    hide Fixed, Data, Encoded;
    DataAppend(ops, more);
    Assoc(Fixed(sequence, 8) + Fixed(|ops| + |more|, 4), Data(ops), Data(more));
  }

  lemma OneOperation(op: Op)
    ensures Data([op]) == Encoded(op)
  {
    hide Encoded;
    assert [op][..0] == [] && Data([]) == [];
    assert Data([op]) == [] + Encoded(op);
  }

  lemma HandledStep(ops: seq<Op>, input: seq<Byte>, op: Op, rest: seq<Byte>)
    requires input != [] && Decoded(input) == Operation(op, rest)
    ensures (ops + Handled(input).0, Handled(input).1) == (ops + [op] + Handled(rest).0, Handled(rest).1)
  {
    hide Decoded;
    assert ops + ([op] + Handled(rest).0) == ops + [op] + Handled(rest).0;
  }

  lemma NothingBefore(ops: seq<Op>)
    ensures [] + ops == ops && ops + [] == ops
  {}

  lemma EmptyRep()
    ensures Rep(0, []) == seq(HEADER, _ => 0)
  {
    assert Fixed(0, 8) == [0, 0, 0, 0, 0, 0, 0, 0] && Fixed(0, 4) == [0, 0, 0, 0];
  }

  lemma HeaderOf(sequence: nat, ops: seq<Op>)
    requires sequence < TWO_64 && |ops| < TWO_32
    ensures |Rep(sequence, ops)| >= HEADER && Rep(sequence, ops)[..8] == Fixed(sequence, 8)
    ensures FixedValue(Rep(sequence, ops)[..8]) == sequence
    ensures FixedValue(Rep(sequence, ops)[8..HEADER]) == |ops|
    ensures Rep(sequence, ops)[HEADER..] == Data(ops)
  {
    assert Pow(256, 4) == TWO_32 && Pow(256, 8) == TWO_64;
    FixedBack(sequence, 8);
    FixedBack(|ops|, 4);
    hide Fixed, Data, FixedValue, Pow;
    assert Rep(sequence, ops)[..8] == Fixed(sequence, 8) && Rep(sequence, ops)[8..HEADER] == Fixed(|ops|, 4);
  }

  lemma {:induction false} DataAppend(a: seq<Op>, b: seq<Op>)
    ensures Data(a + b) == Data(a) + Data(b)
    decreases |b|
  {
    hide Encoded;
    if b == [] {
      assert a + b == a;
    } else {
      var front, last := b[..|b| - 1], b[|b| - 1];
      DataAppend(a, front);
      assert (a + b)[..|a + b| - 1] == a + front;
      Assoc(Data(a), Data(front), Encoded(last));
    }
  }

  /** Whatever went into a batch, in whatever order of calls, comes out of Iterate. */
  lemma BatchRoundTrip(ops: seq<Op>)
    requires forall op :: op in ops ==> Fits(op)
    ensures Handled(Data(ops)) == (ops, Ok)
  {
    HandledBack(ops, []);
    assert Data(ops) + [] == Data(ops) && ops + [] == ops;
  }

  lemma CutOne(op: Op, k: nat)
    requires Fits(op) && 0 < k < |Encoded(op)|
    ensures Decoded(Encoded(op)[..k]) == Malformed(if op.Put? then BadPut else BadDelete)
  {
    hide LengthPrefixed, GetLengthPrefixed;
    var input := Encoded(op)[..k];
    var first := LengthPrefixed(op.key);
    assert input[0] == if op.Put? then TYPE_VALUE else TYPE_DELETION;
    if k - 1 < |first| {
      LengthPrefixedCut(op.key, k - 1);
      assert input[1..] == first[..k - 1];
    } else {
      var rest := LengthPrefixed(op.value)[..k - 1 - |first|];
      LengthPrefixedBack(op.key, rest);
      LengthPrefixedCut(op.value, |rest|);
      assert input[1..] == first + rest;
    }
  }

  /**
   * A batch cut short hands over the operations that are whole and no other, and its end is in order exactly when
   * the cut is between two.
   */
  lemma {:induction false} CutBatch(ops: seq<Op>, k: nat) returns (j: nat)
    requires k <= |Data(ops)| && forall op :: op in ops ==> Fits(op)
    ensures j <= |ops| && |Data(ops[..j])| <= k && (j < |ops| ==> k < |Data(ops[..j + 1])|)
    ensures Handled(Data(ops)[..k]).0 == ops[..j]
    ensures Handled(Data(ops)[..k]).1 == Ok <==> k == |Data(ops[..j])|
    decreases |ops|
  {
    hide Encoded, Decoded;
    if k == |Data(ops)| {
      j := |ops|;
      assert ops[..j] == ops && Data(ops)[..k] == Data(ops);
      BatchRoundTrip(ops);
    } else {
      var front, last := ops[..|ops| - 1], ops[|ops| - 1];
      if k < |Data(front)| {
        j := CutBatch(front, k);
        assert Data(ops)[..k] == Data(front)[..k] && ops[..j] == front[..j] && ops[..j + 1] == front[..j + 1];
      } else {
        j := |front|;
        assert ops[..j] == front && ops[..j + 1] == ops;
        CutInside(front, last, k - |Data(front)|);
        assert Data(ops)[..k] == Data(front) + Encoded(last)[..k - |Data(front)|];
      }
    }
  }

  lemma CutInside(front: seq<Op>, last: Op, k: nat)
    requires Fits(last) && k < |Encoded(last)| && forall op :: op in front ==> Fits(op)
    ensures Handled(Data(front) + Encoded(last)[..k]).0 == front
    ensures Handled(Data(front) + Encoded(last)[..k]).1 == Ok <==> k == 0
  {
    hide Encoded, Decoded, Data;
    var rest := Encoded(last)[..k];
    HandledBack(front, rest);
    if k > 0 {
      CutOne(last, k);
    }
    assert Handled(rest).0 == [];
    assert front + [] == front;
  }
}

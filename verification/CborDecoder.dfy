/** decoder, as the Go type works: a position and a budget that `take` and `count` move, and loops that grow a
    list or a map. Every method is proved against the parsing function of the same step. */
module CborDecoder {
  import opened Bytes
  import opened Cbor

  datatype Outcome<+T> = Got(value: T) | Failed(why: Refusal)

  /** A loop's result from what it has read so far and what the rest of it gives. */
  ghost function Prepend<T>(done: seq<T>, more: Parsed<seq<T>>): Parsed<seq<T>> {
    match more
    case Ok(vs, rest, left) => Ok(done + vs, rest, left)
    case Refused(why) => Refused(why)
  }

  lemma PrependNothing<T>(more: Parsed<seq<T>>)
    ensures Prepend([], more) == more
  {
    if more.Ok? {
      assert [] + more.value == more.value;
    }
  }

  lemma PrependOne<T>(done: seq<T>, v: T, more: Parsed<seq<T>>)
    ensures Prepend(done, Prepend([v], more)) == Prepend(done + [v], more)
  {
    if more.Ok? {
      assert done + ([v] + more.value) == done + [v] + more.value;
    }
  }

  class Decoder {
    const data: bytes
    var pos: nat
    var budget: nat

    ghost predicate Valid()
      reads this
    {
      pos <= |data|
    }

    ghost function Rest(): bytes
      requires Valid()
      reads this
    {
      data[pos..]
    }

    constructor (input: bytes)
      ensures Valid() && data == input && pos == 0 && budget == MAX_ELEMENTS
    {
      data, pos, budget := input, 0, MAX_ELEMENTS;
    }

    /** What the parsing function gives is what the method returned and where it left the decoder. */
    ghost predicate Agrees<T>(spec: Parsed<T>, r: Outcome<T>)
      reads this
    {
      Valid() &&
      match spec
      case Ok(v, rest, left) => r == Got(v) && Rest() == rest && budget == left
      case Refused(why) => r == Failed(why)
    }

    /** take: the next `n` bytes, and past them; nothing when fewer are left. */
    method Take(n: u64) returns (r: Outcome<bytes>)
      requires Valid()
      modifies this`pos
      ensures Valid() && pos >= old(pos)
      ensures n <= |old(Rest())| ==> r == Got(old(Rest())[..n]) && Rest() == old(Rest())[n..] && pos == old(pos) + n
      ensures n > |old(Rest())| ==> r == Failed(Malformed) && pos == old(pos)
    {
      var remaining := |data| - pos;
      if n > remaining {
        return Failed(Malformed);
      }
      var b := data[pos..pos + n];
      assert b == data[pos..][..n] && data[pos + n..] == data[pos..][n..];
      pos := pos + n;
      return Got(b);
    }

    method CountItem() returns (ok: bool)
      modifies this`budget
      ensures ok == (old(budget) > 0)
      ensures budget == if ok then old(budget) - 1 else old(budget)
    {
      if budget == 0 {
        return false;
      }
      budget := budget - 1;
      return true;
    }

    method Argument(ai: nat) returns (r: Outcome<u64>)
      requires Valid()
      modifies this`pos
      ensures Valid() && pos >= old(pos)
      ensures match ReadArgument(ai, old(Rest()))
              case NoArg => r == Failed(Malformed)
              case Arg(n, rest) => r == Got(n) && Rest() == rest
    {
      if ai <= 23 {
        return Got(ai);
      }
      if ai > 27 {
        return Failed(Malformed);
      }
      var width := ArgumentWidth(ai);
      var taken := Take(width);
      if taken.Failed? {
        return Failed(taken.why);
      }
      var b := taken.value;
      FromBigEndianBound(b);
      Pow256Values();
      var arg: nat := 0;
      for i := 0 to |b|
        invariant arg == FromBigEndian(b[..i])
      {
        assert b[..i + 1][..i] == b[..i];
        arg := arg * 256 + b[i];
      }
      assert b[..|b|] == b;
      return Got(arg);
    }

    method ReadItem(depth: nat) returns (r: Outcome<Value>)
      requires Valid()
      modifies this
      ensures Agrees(Item(old(Rest()), old(budget), depth), r)
      ensures pos >= old(pos)
      decreases |data| - pos, 0
    {
      var taken := Take(1);
      if taken.Failed? {
        return Failed(Malformed);
      }
      var head := taken.value[0];
      assert Rest() == old(Rest())[1..];
      if head / 32 == 7 {
        r := ReadSimpleOrFloat(head % 32);
        return;
      }
      var arg := Argument(head % 32);
      if arg.Failed? {
        return Failed(arg.why);
      }
      var counted := CountItem();
      if !counted {
        return Failed(TooManyElements);
      }
      r := ReadBody(head / 32, arg.value, depth);
    }

    method ReadSimpleOrFloat(ai: nat) returns (r: Outcome<Value>)
      requires Valid() && ai < 32
      modifies this
      ensures Agrees(SimpleOrFloat(ai, old(Rest()), old(budget)), r)
      ensures pos >= old(pos)
    {
      if ai == 22 {
        var counted := CountItem();
        return if counted then Got(Null) else Failed(TooManyElements);
      }
      if 25 <= ai <= 27 {
        var taken := Take(ArgumentWidth(ai));
        if taken.Failed? {
          return Failed(taken.why);
        }
        var counted := CountItem();
        if !counted {
          return Failed(TooManyElements);
        }
        var f := FloatFrom(taken.value);
        return if Finite(f) then Got(Float(f)) else Failed(Malformed);
      }
      if ai <= 24 {
        var arg := Argument(ai);
        if arg.Failed? {
          return Failed(arg.why);
        }
        var counted := CountItem();
        return if counted then Failed(Malformed) else Failed(TooManyElements);
      }
      return Failed(Malformed);
    }

    method ReadBody(major: nat, n: u64, depth: nat) returns (r: Outcome<Value>)
      requires Valid() && major < 7
      modifies this
      ensures Agrees(Body(major, n, old(Rest()), old(budget), depth), r)
      ensures pos >= old(pos)
      decreases |data| - pos, 2
    {
      match major {
        case 0 => return if n >= TWO63 then Failed(IntegerOutOfRange) else Got(UInt(n));
        case 1 => return if n >= TWO63 then Failed(IntegerOutOfRange) else Got(NegInt(n));
        case 2 =>
          var taken := Take(n);
          return if taken.Failed? then Failed(taken.why) else Got(Value.Bytes(taken.value));
        case 3 =>
          var taken := Take(n);
          if taken.Failed? {
            return Failed(taken.why);
          }
          return if ValidUtf8(taken.value) then Got(Text(taken.value)) else Failed(InvalidText);
        case 4 =>
          if depth >= MAX_NESTING {
            return Failed(NestingTooDeep);
          }
          var items := ReadList(n, depth);
          return if items.Failed? then Failed(items.why) else Got(List(items.value));
        case 5 =>
          if depth >= MAX_NESTING {
            return Failed(NestingTooDeep);
          }
          var entries := ReadMap(n, depth);
          return if entries.Failed? then Failed(entries.why) else Got(Map(entries.value));
        case _ => return Failed(Malformed);
      }
    }

    method ReadList(count: nat, depth: nat) returns (r: Outcome<seq<Value>>)
      requires Valid()
      modifies this
      ensures Agrees(Items(count, old(Rest()), old(budget), depth + 1), r)
      ensures pos >= old(pos)
      decreases |data| - pos, 1
    {
      ghost var whole := Items(count, Rest(), budget, depth + 1);
      PrependNothing(whole);
      var items: seq<Value> := [];
      for i := 0 to count
        invariant Valid() && pos >= old(pos)
        invariant whole == Prepend(items, Items(count - i, Rest(), budget, depth + 1))
      {
        var item := ReadItem(depth + 1);
        if item.Failed? {
          return Failed(item.why);
        }
        PrependOne(items, item.value, Items(count - i - 1, Rest(), budget, depth + 1));
        items := items + [item.value];
      }
      assert items + [] == items;
      return Got(items);
    }

    method ReadMap(count: nat, depth: nat) returns (r: Outcome<seq<Entry>>)
      requires Valid()
      modifies this
      ensures Agrees(Entries(count, old(Rest()), old(budget), depth + 1, {}), r)
      ensures pos >= old(pos)
      decreases |data| - pos, 1
    {
      ghost var whole := Entries(count, Rest(), budget, depth + 1, {});
      PrependNothing(whole);
      var entries: seq<Entry> := [];
      var seen: set<Value> := {};
      for i := 0 to count
        invariant Valid() && pos >= old(pos)
        invariant whole == Prepend(entries, Entries(count - i, Rest(), budget, depth + 1, seen))
      {
        var key := ReadItem(depth + 1);
        if key.Failed? {
          return Failed(key.why);
        }
        var val := ReadItem(depth + 1);
        if val.Failed? {
          return Failed(val.why);
        }
        if !IsKey(key.value) {
          return Failed(BadKey);
        }
        if key.value in seen {
          return Failed(DuplicateKey);
        }
        seen := seen + {key.value};
        var e := Entry(key.value, val.value);
        PrependOne(entries, e, Entries(count - i - 1, Rest(), budget, depth + 1, seen));
        entries := entries + [e];
      }
      assert entries + [] == entries;
      return Got(entries);
    }
  }

  /** Decode, run: the method agrees with the parsing function on every input. */
  method RunDecode(data: bytes) returns (r: Decoded)
    ensures r == Decode(data)
  {
    var d := new Decoder(data);
    var v := d.ReadItem(0);
    assert data[0..] == data;
    if v.Failed? {
      return Rejected(v.why);
    }
    if d.pos != |d.data| {
      return Rejected(TrailingBytes);
    }
    return Accepted(v.value);
  }
}

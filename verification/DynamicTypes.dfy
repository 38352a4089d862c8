/**
 The dynamic types of include/oi/types/dy.h, the values they describe, and the words and
 events that such a value leaves in a data segment.
 */
module DynamicTypes {
  import opened Machine

  datatype Dynamic =
    | Unit
    | VarInt
    | Pair(first: Dynamic, second: Dynamic)
    | Sum(variants: seq<Dynamic>)
    | List(element: Dynamic)

  datatype Val =
    | UnitVal
    | IntVal(value: U64)
    | PairVal(first: Val, second: Val)
    | SumVal(index: nat, payload: Val)
    | ListVal(items: seq<Val>)

  /** One word of a data segment together with its role. */
  datatype Event = VarIntEvent(value: U64) | SumIndex(index: U64) | ListLength(length: U64)

  ghost predicate HasType(v: Val, ty: Dynamic)
    decreases ty
  {
    match ty
    case Unit => v == UnitVal
    case VarInt => v.IntVal?
    case Pair(t1, t2) => v.PairVal? && HasType(v.first, t1) && HasType(v.second, t2)
    case Sum(ts) => v.SumVal? && v.index < U64_LIMIT && v.index < |ts| && HasType(v.payload, ts[v.index])
    case List(t) => v.ListVal? && |v.items| < U64_LIMIT && forall x :: x in v.items ==> HasType(x, t)
  }

  /** The events of a value, in the order they are written. */
  ghost function Events(v: Val, ty: Dynamic): (es: seq<Event>)
    requires HasType(v, ty)
    decreases ty, 0
  {
    match ty
    case Unit => []
    case VarInt => [VarIntEvent(v.value)]
    case Pair(t1, t2) => Events(v.first, t1) + Events(v.second, t2)
    case Sum(ts) => [SumIndex(v.index)] + Events(v.payload, ts[v.index])
    case List(t) => [ListLength(|v.items|)] + EventsOfAll(v.items, t)
  }

  ghost function EventsOfAll(vs: seq<Val>, ty: Dynamic): seq<Event>
    requires forall x :: x in vs ==> HasType(x, ty)
    decreases ty, 1 + |vs|
  {
    if vs == [] then [] else Events(vs[0], ty) + EventsOfAll(vs[1..], ty)
  }

  function Word(e: Event): U64
  {
    match e
    case VarIntEvent(v) => v
    case SumIndex(i) => i
    case ListLength(n) => n
  }

  function Words(es: seq<Event>): (ws: seq<U64>)
    ensures |ws| == |es|
  {
    if es == [] then [] else [Word(es[0])] + Words(es[1..])
  }

  lemma {:induction false} WordsConcat(es: seq<Event>, fs: seq<Event>)
    ensures Words(es + fs) == Words(es) + Words(fs)
  {
    if es == [] {
      assert es + fs == fs;
    } else {
      WordsConcat(es[1..], fs);
      assert (es + fs)[1..] == es[1..] + fs;
    }
  }

  lemma WordsThen(es: seq<Event>, fs: seq<Event>, rest: seq<U64>)
    ensures Words(es + fs) + rest == Words(es) + (Words(fs) + rest)
  {
    WordsConcat(es, fs);
  }

  lemma WordThen(e: Event, fs: seq<Event>, rest: seq<U64>)
    ensures Words([e] + fs) + rest == [Word(e)] + (Words(fs) + rest)
  {
    assert ([e] + fs)[1..] == fs;
  }
}

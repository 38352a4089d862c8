/**
 The three texts that oi/CodeGen.cpp generates for a class: the static type of its data, the chain
 of writes that fills it, and the reader's fields. Text is modelled by its tokens.
 */
module ClassCodeGen {
  import opened Machine

  const MEMBER_PREFIX := "__oi_padding"

  datatype Member = Member(name: string, inputName: string)

  predicate IsPadding(m: Member)
  {
    MEMBER_PREFIX <= m.name
  }

  /** Static types; a member's own type is known by the member's index. */
  datatype StaticType = Unit | VarInt | Pair(first: StaticType, second: StaticType) | OfMember(index: nat)

  datatype Token = PairOpen | Close | Comma | UnitToken | VarIntToken | MemberToken(index: nat)

  datatype Op = WriteIsset(fieldIndex: nat) | Delegate(index: nat) | Consume(index: nat)

  /** A reader field: the member it is for, and whether an isset value is read before it. */
  datatype FieldText = FieldText(index: nat, name: string, isset: bool)

  /** An isset value is stored before every member except the isset member itself. */
  predicate HasIsset(issetMember: Option<nat>, i: nat)
  {
    issetMember.Some? && issetMember.value != i
  }

  /** What is stored for members from `i` on, in order. */
  function Slots(ms: seq<Member>, issetMember: Option<nat>, i: nat): (r: seq<StaticType>)
    requires i <= |ms|
    ensures Simple(r)
    ensures forall k :: 0 <= k < |r| && r[k].OfMember? ==> r[k].index < |ms|
    decreases |ms| - i
  {
    if i == |ms| then []
    else SlotsOf(ms, issetMember, i) + Slots(ms, issetMember, i + 1)
  }

  /** Right-nested pairs. */
  function Nest(slots: seq<StaticType>): StaticType
  {
    if slots == [] then Unit
    else if |slots| == 1 then slots[0]
    else Pair(slots[0], Nest(slots[1..]))
  }

  function Print(st: StaticType): (r: seq<Token>)
    ensures r != []
  {
    match st
    case Unit => [UnitToken]
    case VarInt => [VarIntToken]
    case OfMember(i) => [MemberToken(i)]
    case Pair(a, b) => [PairOpen] + (Print(a) + ([Comma] + (Print(b) + [Close])))
  }

  /** A reader of bracketed types. */
  function Parse(ts: seq<Token>): (r: Option<(StaticType, seq<Token>)>)
    ensures r.Some? ==> |r.value.1| < |ts|
    decreases |ts|
  {
    if ts == [] then None
    else
      match ts[0]
      case UnitToken => Some((Unit, ts[1..]))
      case VarIntToken => Some((VarInt, ts[1..]))
      case MemberToken(i) => Some((OfMember(i), ts[1..]))
      case PairOpen =>
        (match Parse(ts[1..])
         case None => None
         case Some((a, us)) =>
           if us == [] || us[0] != Comma then None
           else
             match Parse(us[1..])
             case None => None
             case Some((b, vs)) =>
               if vs == [] || vs[0] != Close then None else Some((Pair(a, b), vs[1..])))
      case _ => None
  }

  /** The brackets of a printed type are balanced and say which type it is. */
  lemma {:induction false} ParsePrint(st: StaticType, rest: seq<Token>)
    ensures Parse(Print(st) + rest) == Some((st, rest))
  {
    if st.Pair? {
      var tail := [Close] + rest;
      var middle := [Comma] + (Print(st.second) + tail);
      assert Print(st) + rest == [PairOpen] + (Print(st.first) + middle);
      ParsePrint(st.first, middle);
      ParsePrint(st.second, tail);
    }
  }

  // ----- which members have isset values

  /** The slots in which right-nested pairs are nested. */
  function Unnest(st: StaticType): (slots: seq<StaticType>)
  {
    match st
    case Unit => []
    case Pair(a, b) => [a] + Unnest(b)
    case VarInt => [st]
    case OfMember(_) => [st]
  }

  lemma {:induction false} UnnestNest(slots: seq<StaticType>)
    requires Simple(slots)
    ensures Unnest(Nest(slots)) == slots
    decreases |slots|
  {
    if |slots| > 1 {
      UnnestNest(slots[1..]);
      assert slots == [slots[0]] + slots[1..];
    } else if |slots| == 1 {
      assert slots == [slots[0]];
    }
  }

  /** Just the members that are not padding are stored. */
  ghost predicate StoresMembers(ms: seq<Member>, slots: seq<StaticType>)
  {
    forall i: nat :: OfMember(i) in slots <==> i < |ms| && !("__oi_padding" <= ms[i].name)
  }

  /**
   A member has an integer of its own before it exactly if there is an isset member and it is another
   one, and an integer is always followed by a member.
   */
  ghost predicate PlacedAt(issetMember: Option<nat>, slots: seq<StaticType>, k: nat)
    requires k < |slots|
  {
    match slots[k]
    case OfMember(i) => k > 0 && slots[k - 1].VarInt? <==> issetMember.Some? && issetMember.value != i
    case VarInt => k + 1 < |slots| && slots[k + 1].OfMember?
    case Unit => false
    case Pair(_, _) => false
  }

  /** Members are stored in order, and exactly those that are not the isset member have integers before them. */
  ghost predicate IssetsPlaced(issetMember: Option<nat>, slots: seq<StaticType>)
  {
    && (forall k :: 0 <= k < |slots| ==> PlacedAt(issetMember, slots, k))
    && (forall j, k :: 0 <= j < k < |slots| && slots[j].OfMember? && slots[k].OfMember? ==> slots[j].index < slots[k].index)
  }

  ghost predicate IssetLaw(ms: seq<Member>, issetMember: Option<nat>, slots: seq<StaticType>)
  {
    StoresMembers(ms, slots) && IssetsPlaced(issetMember, slots)
  }

  lemma {:induction false} SlotsStoreMembers(ms: seq<Member>, issetMember: Option<nat>, i: nat, j: nat)
    requires i <= |ms|
    ensures OfMember(j) in Slots(ms, issetMember, i) <==> i <= j < |ms| && !("__oi_padding" <= ms[j].name)
    decreases |ms| - i
  {
    if i < |ms| {
      SlotsStoreMembers(ms, issetMember, i + 1, j);
      InEither(OfMember(j), SlotsOf(ms, issetMember, i), Slots(ms, issetMember, i + 1));
      assert OfMember(j) in SlotsOf(ms, issetMember, i) <==> i == j && !IsPadding(ms[i]);
    }
  }

  lemma InEither(s: StaticType, a: seq<StaticType>, b: seq<StaticType>)
    ensures s in a + b <==> s in a || s in b
  {
  }

  lemma {:induction false} SlotsPlaceIssets(ms: seq<Member>, issetMember: Option<nat>, i: nat)
    requires i <= |ms|
    ensures IssetsPlaced(issetMember, Slots(ms, issetMember, i)) && Later(Slots(ms, issetMember, i), i)
    decreases |ms| - i
  {
    hide IsPadding, IssetsPlaced, Later;
    if i == |ms| {
      NothingPlaced(issetMember, i);
    } else {
      SlotsPlaceIssets(ms, issetMember, i + 1);
      var rest := Slots(ms, issetMember, i + 1);
      if IsPadding(ms[i]) {
        assert [] + rest == rest;
        StillLater(rest, i);
      } else if issetMember.Some? && issetMember.value != i {
        PlacedAfterInteger(issetMember, i, rest);
      } else {
        PlacedAlone(issetMember, i, rest);
      }
    }
  }

  /** Only members from `i` on. */
  ghost predicate Later(slots: seq<StaticType>, i: nat)
  {
    forall k :: 0 <= k < |slots| && slots[k].OfMember? ==> slots[k].index >= i
  }

  lemma NothingPlaced(issetMember: Option<nat>, i: nat)
    ensures IssetsPlaced(issetMember, []) && Later([], i)
  {
  }

  lemma StillLater(slots: seq<StaticType>, i: nat)
    requires Later(slots, i + 1)
    ensures Later(slots, i)
  {
  }

  lemma PlacedAlone(issetMember: Option<nat>, i: nat, rest: seq<StaticType>)
    requires IssetsPlaced(issetMember, rest) && Later(rest, i + 1)
    requires issetMember.None? || issetMember.value == i
    ensures IssetsPlaced(issetMember, [OfMember(i)] + rest) && Later([OfMember(i)] + rest, i)
  {
    var slots := [OfMember(i)] + rest;
    assert forall k :: 1 <= k < |slots| ==> slots[k] == rest[k - 1];
    forall k | 0 <= k < |slots|
      ensures PlacedAt(issetMember, slots, k)
    {
      if k > 0 {
        assert PlacedAt(issetMember, rest, k - 1);
      }
    }
  }

  lemma PlacedAfterInteger(issetMember: Option<nat>, i: nat, rest: seq<StaticType>)
    requires IssetsPlaced(issetMember, rest) && Later(rest, i + 1)
    requires issetMember.Some? && issetMember.value != i
    ensures IssetsPlaced(issetMember, [VarInt, OfMember(i)] + rest) && Later([VarInt, OfMember(i)] + rest, i)
  {
    var slots := [VarInt, OfMember(i)] + rest;
    assert forall k :: 2 <= k < |slots| ==> slots[k] == rest[k - 2];
    forall k | 0 <= k < |slots|
      ensures PlacedAt(issetMember, slots, k)
    {
      if k > 1 {
        assert PlacedAt(issetMember, rest, k - 2);
      }
    }
  }

  lemma SlotsLaw(ms: seq<Member>, issetMember: Option<nat>)
    ensures IssetLaw(ms, issetMember, Slots(ms, issetMember, 0))
    ensures Unnest(Nest(Slots(ms, issetMember, 0))) == Slots(ms, issetMember, 0)
  {
    hide Slots, IssetsPlaced, Nest, Unnest, Later;
    forall j: nat
      ensures OfMember(j) in Slots(ms, issetMember, 0) <==> j < |ms| && !("__oi_padding" <= ms[j].name)
    {
      SlotsStoreMembers(ms, issetMember, 0, j);
    }
    SlotsPlaceIssets(ms, issetMember, 0);
    UnnestNest(Slots(ms, issetMember, 0));
  }

  /** How many slots are integers, and how many are members. */
  function Integers(slots: seq<StaticType>): nat
  {
    if slots == [] then 0 else (if slots[0].VarInt? then 1 else 0) + Integers(slots[1..])
  }

  function Members(slots: seq<StaticType>): nat
  {
    if slots == [] then 0 else (if slots[0].OfMember? then 1 else 0) + Members(slots[1..])
  }

  /** With an isset member that is stored there is one integer less than there are members; without one there is none. */
  lemma {:induction false} IntegersCounted(issetMember: Option<nat>, slots: seq<StaticType>)
    requires IssetsPlaced(issetMember, slots)
    ensures issetMember.None? ==> Integers(slots) == 0
    ensures issetMember.Some? ==>
              Integers(slots) + (if OfMember(issetMember.value) in slots then 1 else 0) == Members(slots)
    decreases |slots|
  {
    if slots != [] {
      var n := if slots[0].VarInt? then 2 else 1;
      assert PlacedAt(issetMember, slots, 0) && PlacedAt(issetMember, slots, n - 1);
      PlacedBehind(issetMember, slots, n);
      IntegersCounted(issetMember, slots[n..]);
      assert slots == slots[..n] + slots[n..];
      if issetMember.Some? {
        InEither(OfMember(issetMember.value), slots[..n], slots[n..]);
        OnceIn(issetMember, slots, n);
      }
      if n == 2 {
        assert slots[1..][1..] == slots[2..];
      }
    }
  }

  lemma OnceIn(issetMember: Option<nat>, slots: seq<StaticType>, n: nat)
    requires IssetsPlaced(issetMember, slots) && issetMember.Some? && 0 < n <= |slots| && n <= 2 && slots[n - 1].OfMember?
    requires n == 2 <==> slots[0].VarInt?
    ensures OfMember(issetMember.value) in slots[..n] <==> n == 1
    ensures n == 1 ==> OfMember(issetMember.value) !in slots[1..]
  {
    assert n == 2 ==> slots[..n] == [slots[0], slots[1]];
    assert n == 1 ==> slots[..n] == [slots[0]];
    assert PlacedAt(issetMember, slots, n - 1);
    forall k | 1 <= k < |slots|
      ensures n == 1 ==> slots[k] != OfMember(issetMember.value)
    {
    }
  }

  lemma PlacedBehind(issetMember: Option<nat>, slots: seq<StaticType>, n: nat)
    requires IssetsPlaced(issetMember, slots) && 0 < n <= |slots| && slots[n - 1].OfMember?
    ensures IssetsPlaced(issetMember, slots[n..])
  {
    var rest := slots[n..];
    assert forall k :: 0 <= k < |rest| ==> rest[k] == slots[k + n];
    forall k | 0 <= k < |rest|
      ensures PlacedAt(issetMember, rest, k)
    {
      assert PlacedAt(issetMember, slots, k + n);
    }
  }

  // ----- the loops that generate

  /** `getLastNonPaddingMemberIndex`; the last value of a 64-bit word stands for none. */
  method GetLastNonPaddingMemberIndex(ms: seq<Member>) returns (last: U64)
    requires |ms| < U64_LIMIT - 1
    ensures last < |ms| ==> !IsPadding(ms[last])
    ensures last >= |ms| ==> last == U64_LIMIT - 1
    ensures forall i :: 0 <= i < |ms| && (last < i || last >= |ms|) ==> IsPadding(ms[i])
  {
    var i: U64 := WrappingSub(|ms|, 1);
    while i != U64_LIMIT - 1
      invariant i < |ms| || i == U64_LIMIT - 1
      invariant forall k :: 0 <= k < |ms| && (i < k || i == U64_LIMIT - 1) ==> IsPadding(ms[k])
      decreases if i == U64_LIMIT - 1 then -1 else i
    {
      if !IsPadding(ms[i]) {
        return i;
      }
      i := WrappingSub(i, 1);
    }
    return i;
  }

  /** The token of a slot, which is never a pair. */
  function SlotToken(s: StaticType): Token
  {
    if s.OfMember? then MemberToken(s.index) else VarIntToken
  }

  /** The part of the text for all slots before the last. */
  function Opening(slots: seq<StaticType>): seq<Token>
  {
    if slots == [] then [] else [PairOpen, SlotToken(slots[0]), Comma] + Opening(slots[1..])
  }

  function Closing(n: nat): (r: seq<Token>)
    ensures |r| == n && forall i :: 0 <= i < n ==> r[i] == Close
  {
    if n == 0 then [] else Closing(n - 1) + [Close]
  }

  ghost predicate Simple(slots: seq<StaticType>)
  {
    forall i :: 0 <= i < |slots| ==> slots[i].VarInt? || slots[i].OfMember?
  }

  lemma {:induction false} PrintNest(front: seq<StaticType>, last: StaticType)
    requires Simple(front)
    ensures Print(Nest(front + [last])) == Opening(front) + (Print(last) + Closing(|front|))
    decreases |front|
  {
    if front == [] {
      assert front + [last] == [last];
    } else {
      assert (front + [last])[1..] == front[1..] + [last];
      PrintNest(front[1..], last);
      PairText(SlotToken(front[0]), Opening(front[1..]), Print(last), Closing(|front| - 1));
    }
  }

  lemma PairText(t: Token, open: seq<Token>, y: seq<Token>, close: seq<Token>)
    ensures [PairOpen] + ([t] + ([Comma] + ((open + (y + close)) + [Close]))) ==
            ([PairOpen, t, Comma] + open) + (y + (close + [Close]))
  {
  }

  lemma {:induction false} OpeningAppend(slots: seq<StaticType>, s: StaticType)
    ensures Opening(slots + [s]) == Opening(slots) + [PairOpen, SlotToken(s), Comma]
    decreases |slots|
  {
    if slots == [] {
      assert [s][1..] == [];
    } else {
      assert (slots + [s])[1..] == slots[1..] + [s];
      OpeningAppend(slots[1..], s);
    }
  }

  /** The slots of one member. */
  function SlotsOf(ms: seq<Member>, issetMember: Option<nat>, i: nat): seq<StaticType>
    requires i < |ms|
  {
    if IsPadding(ms[i]) then [] else if HasIsset(issetMember, i) then [VarInt, OfMember(i)] else [OfMember(i)]
  }

  /** The slots of the members before `i`. */
  function SlotsBefore(ms: seq<Member>, issetMember: Option<nat>, i: nat): (r: seq<StaticType>)
    requires i <= |ms|
    ensures Simple(r)
  {
    if i == 0 then []
    else SlotsBefore(ms, issetMember, i - 1) + SlotsOf(ms, issetMember, i - 1)
  }

  lemma {:induction false} SlotsSplit(ms: seq<Member>, issetMember: Option<nat>, i: nat)
    requires i <= |ms|
    ensures SlotsBefore(ms, issetMember, i) + Slots(ms, issetMember, i) == Slots(ms, issetMember, 0)
  {
    if i > 0 {
      SlotsSplit(ms, issetMember, i - 1);
    }
  }

  lemma {:induction false} OnlyPaddingLeft(ms: seq<Member>, issetMember: Option<nat>, i: nat)
    requires i <= |ms| && forall k :: i <= k < |ms| ==> IsPadding(ms[k])
    ensures Slots(ms, issetMember, i) == []
    decreases |ms| - i
  {
    if i < |ms| {
      OnlyPaddingLeft(ms, issetMember, i + 1);
    }
  }

  /** What one turn of the loop adds to the text. */
  function MemberText(ms: seq<Member>, issetMember: Option<nat>, last: nat, i: nat): seq<Token>
    requires i < |ms|
  {
    if IsPadding(ms[i]) then []
    else if i == last then (if HasIsset(issetMember, i) then [PairOpen, VarIntToken, Comma] else []) + [MemberToken(i)]
    else if HasIsset(issetMember, i) then [PairOpen, VarIntToken, Comma, PairOpen, MemberToken(i), Comma]
    else [PairOpen, MemberToken(i), Comma]
  }

  function TextBefore(ms: seq<Member>, issetMember: Option<nat>, last: nat, i: nat): seq<Token>
    requires i <= |ms|
  {
    if i == 0 then [] else TextBefore(ms, issetMember, last, i - 1) + MemberText(ms, issetMember, last, i - 1)
  }

  lemma {:induction false} TextIsOpening(ms: seq<Member>, issetMember: Option<nat>, last: nat, i: nat)
    requires i <= last < |ms|
    ensures TextBefore(ms, issetMember, last, i) == Opening(SlotsBefore(ms, issetMember, i))
  {
    hide MemberText, SlotsOf;
    if i > 0 {
      TextIsOpening(ms, issetMember, last, i - 1);
      OpeningOf(SlotsBefore(ms, issetMember, i - 1), ms, issetMember, last, i - 1);
    }
  }

  lemma OpeningOf(before: seq<StaticType>, ms: seq<Member>, issetMember: Option<nat>, last: nat, i: nat)
    requires i < |ms| && i != last
    ensures Opening(before + SlotsOf(ms, issetMember, i)) == Opening(before) + MemberText(ms, issetMember, last, i)
  {
    hide Opening;
    if IsPadding(ms[i]) {
      assert before + [] == before;
    } else if HasIsset(issetMember, i) {
      OpeningAppend(before, VarInt);
      OpeningAppend(before + [VarInt], OfMember(i));
      assert (before + [VarInt]) + [OfMember(i)] == before + [VarInt, OfMember(i)];
    } else {
      OpeningAppend(before, OfMember(i));
    }
  }

  /** The whole text: openings of all slots but the last, the last slot, and the closing brackets. */
  lemma TextIsNest(ms: seq<Member>, issetMember: Option<nat>, last: nat)
    requires last < |ms| && !IsPadding(ms[last]) && forall i :: last < i < |ms| ==> IsPadding(ms[i])
    ensures |Slots(ms, issetMember, 0)| == |SlotsBefore(ms, issetMember, last + 1)| > 0
    ensures TextBefore(ms, issetMember, last, last + 1) + Closing(|Slots(ms, issetMember, 0)| - 1) ==
            Print(Nest(Slots(ms, issetMember, 0)))
  {
    hide Nest, Opening, Slots, IsPadding;
    var before := SlotsBefore(ms, issetMember, last);
    var front := before + if HasIsset(issetMember, last) then [VarInt] else [];
    LastSlot(ms, issetMember, last);
    TextIsOpening(ms, issetMember, last, last);
    PrintNest(front, OfMember(last));
    if HasIsset(issetMember, last) {
      OpeningAppend(before, VarInt);
    } else {
      assert front == before;
    }
    LastText(ms, issetMember, last);
    Join(Opening(front), [MemberToken(last)], Closing(|front|));
  }

  lemma Join<T>(a: seq<T>, b: seq<T>, c: seq<T>)
    ensures (a + b) + c == a + (b + c)
  {
  }

  lemma LastText(ms: seq<Member>, issetMember: Option<nat>, last: nat)
    requires last < |ms| && !IsPadding(ms[last])
    ensures TextBefore(ms, issetMember, last, last + 1) ==
            (if HasIsset(issetMember, last) then TextBefore(ms, issetMember, last, last) + [PairOpen, VarIntToken, Comma]
             else TextBefore(ms, issetMember, last, last)) + [MemberToken(last)]
  {
    if HasIsset(issetMember, last) {
      Join(TextBefore(ms, issetMember, last, last), [PairOpen, VarIntToken, Comma], [MemberToken(last)]);
    }
  }

  /**
   `genClassStaticType` appends the text of the right-nested type of all slots; a class of padding
   only is a unit.
   */
  method GenClassStaticType(ms: seq<Member>, issetMember: Option<nat>, code: seq<Token>) returns (out: seq<Token>)
    requires |ms| < U64_LIMIT - 1
    ensures out == code + Print(Nest(Slots(ms, issetMember, 0)))
    ensures var read := Parse(out[|code|..]); read.Some? && read.value.1 == [] && IssetLaw(ms, issetMember, Unnest(read.value.0))
  {
    hide Slots, Nest, Print, Opening, HasIsset, MemberText, IsPadding, Parse, Unnest, IssetLaw;
    var last := GetLastNonPaddingMemberIndex(ms);
    var end := if last == U64_LIMIT - 1 then 0 else last + 1;
    var pairs := 0;
    var text: seq<Token> := [];
    for i := 0 to end
      invariant text == TextBefore(ms, issetMember, last, i)
      invariant pairs == |SlotsBefore(ms, issetMember, i)| - if i > last then 1 else 0
    {
      var more, n := GenMember(ms, issetMember, last, i);
      text := text + more;
      pairs := pairs + n;
    }
    text := text + Closing(pairs);
    if end > 0 {
      TextIsNest(ms, issetMember, last);
    } else {
      OnlyPaddingText(ms, issetMember);
    }
    if |text| == 0 {
      text := text + [UnitToken];
    }
    out := code + text;
    SlotsLaw(ms, issetMember);
    ParsePrint(Nest(Slots(ms, issetMember, 0)), []);
    assert out[|code|..] == text == text + [];
  }

  lemma OnlyPaddingText(ms: seq<Member>, issetMember: Option<nat>)
    requires forall i :: 0 <= i < |ms| ==> IsPadding(ms[i])
    ensures Print(Nest(Slots(ms, issetMember, 0))) == [UnitToken]
  {
    OnlyPaddingLeft(ms, issetMember, 0);
  }

  /** One turn of the loop: the text for a member and the number of pairs it opens. */
  method GenMember(ms: seq<Member>, issetMember: Option<nat>, last: nat, i: nat) returns (text: seq<Token>, pairs: nat)
    requires i < |ms|
    ensures text == MemberText(ms, issetMember, last, i)
    ensures pairs == |SlotsOf(ms, issetMember, i)| - if i == last && !IsPadding(ms[i]) then 1 else 0
  {
    text, pairs := [], 0;
    if IsPadding(ms[i]) {
      return;
    }
    if i != last {
      text := text + [PairOpen];
      pairs := pairs + 1;
    }
    if HasIsset(issetMember, i) {
      pairs := pairs + 1;
      if i == last {
        text := text + [PairOpen, VarIntToken, Comma];
      } else {
        text := text + [VarIntToken, Comma, PairOpen];
      }
    }
    text := text + [MemberToken(i)];
    if i != last {
      text := text + [Comma];
    }
  }

  lemma LastSlot(ms: seq<Member>, issetMember: Option<nat>, last: nat)
    requires last < |ms| && !IsPadding(ms[last]) && forall i :: last < i < |ms| ==> IsPadding(ms[i])
    ensures Slots(ms, issetMember, 0) ==
            (SlotsBefore(ms, issetMember, last) + if HasIsset(issetMember, last) then [VarInt] else []) + [OfMember(last)]
  {
    hide IsPadding, HasIsset, Slots, SlotsBefore;
    SlotsSplit(ms, issetMember, last);
    OnlyPaddingLeft(ms, issetMember, last + 1);
    SlotsStep(ms, issetMember, last);
    var own := if HasIsset(issetMember, last) then [VarInt] else [];
    assert SlotsOf(ms, issetMember, last) + [] == own + [OfMember(last)];
    Join(SlotsBefore(ms, issetMember, last), own, [OfMember(last)]);
  }

  lemma SlotsStep(ms: seq<Member>, issetMember: Option<nat>, i: nat)
    requires i < |ms|
    ensures Slots(ms, issetMember, i) == SlotsOf(ms, issetMember, i) + Slots(ms, issetMember, i + 1)
  {
  }

  // ----- the chain of writes

  /** What `write`, `delegate` and `consume` of include/oi/types/st.h leave to be written; None is a type error. */
  function Apply(op: Op, st: StaticType): Option<StaticType>
  {
    match op
    case WriteIsset(_) =>
      if st.VarInt? then Some(Unit) else if st.Pair? && st.first.VarInt? then Some(st.second) else None
    case Delegate(i) => if st.Pair? && st.first == OfMember(i) then Some(st.second) else None
    case Consume(i) => if st == OfMember(i) then Some(Unit) else None
  }

  function Chain(ops: seq<Op>, st: StaticType): Option<StaticType>
  {
    if ops == [] then Some(st)
    else match Chain(ops[..|ops| - 1], st) case None => None case Some(t) => Apply(ops[|ops| - 1], t)
  }

  lemma ChainAppend(ops: seq<Op>, op: Op, st: StaticType)
    requires Chain(ops, st).Some?
    ensures Chain(ops + [op], st) == Apply(op, Chain(ops, st).value)
  {
    assert (ops + [op])[..|ops|] == ops;
  }

  function SlotOfOp(op: Op): StaticType
  {
    if op.WriteIsset? then VarInt else OfMember(op.index)
  }

  /** What a chain stores, in order. */
  function Stored(ops: seq<Op>): (r: seq<StaticType>)
    ensures |r| == |ops| && forall j :: 0 <= j < |r| ==> r[j] == SlotOfOp(ops[j])
  {
    seq(|ops|, j requires 0 <= j < |ops| => SlotOfOp(ops[j]))
  }

  lemma StoredAppend(ops: seq<Op>, op: Op)
    ensures Stored(ops + [op]) == Stored(ops) + [SlotOfOp(op)]
  {
  }

  /** The chain so far has stored the slots of the members before `i` and leaves those from `i` on. */
  ghost predicate Reduces(ops: seq<Op>, ms: seq<Member>, issetMember: Option<nat>, i: nat)
    requires i <= |ms|
  {
    && Stored(ops) == SlotsBefore(ms, issetMember, i)
    && Chain(ops, Nest(Slots(ms, issetMember, 0))) == Some(Nest(Slots(ms, issetMember, i)))
  }

  lemma SlotsContainLast(ms: seq<Member>, issetMember: Option<nat>, i: nat, last: nat)
    requires i <= last < |ms| && !IsPadding(ms[last])
    ensures Slots(ms, issetMember, i) != []
    decreases last - i
  {
    if i < last {
      SlotsContainLast(ms, issetMember, i + 1, last);
    }
  }

  /** The operations for one member reduce the type by that member's slots. */
  lemma ReducesMember(ops: seq<Op>, ms: seq<Member>, issetMember: Option<nat>, i: nat, last: nat, field: nat)
    requires i <= last < |ms| && !IsPadding(ms[last]) && !IsPadding(ms[i])
    requires forall k :: last < k < |ms| ==> IsPadding(ms[k])
    requires Reduces(ops, ms, issetMember, i)
    ensures Reduces(ops + MemberOps(issetMember, i, last, field), ms, issetMember, i + 1)
  {
    hide IsPadding, Nest, Apply, Slots, Reduces, Chain, Stored;
    var rest := Slots(ms, issetMember, i + 1);
    SlotsStep(ms, issetMember, i);
    if i == last {
      OnlyPaddingLeft(ms, issetMember, i + 1);
    } else {
      SlotsContainLast(ms, issetMember, i + 1, last);
    }
    ApplySteps(rest, i, last, field);
    var op := if i == last then Consume(i) else Delegate(i);
    if HasIsset(issetMember, i) {
      assert Slots(ms, issetMember, i) == [VarInt, OfMember(i)] + rest;
      ReducesTwo(ops, WriteIsset(field), op, ms, issetMember, i);
    } else {
      assert Slots(ms, issetMember, i) == [OfMember(i)] + rest;
      ReducesOne(ops, op, ms, issetMember, i);
    }
  }

  lemma ApplySteps(rest: seq<StaticType>, i: nat, last: nat, field: nat)
    requires rest == [] <==> i == last
    ensures Apply(if i == last then Consume(i) else Delegate(i), Nest([OfMember(i)] + rest)) == Some(Nest(rest))
    ensures Apply(WriteIsset(field), Nest([VarInt, OfMember(i)] + rest)) == Some(Nest([OfMember(i)] + rest))
  {
    assert ([OfMember(i)] + rest)[1..] == rest;
    assert ([VarInt, OfMember(i)] + rest)[1..] == [OfMember(i)] + rest;
  }

  lemma ReducesOne(ops: seq<Op>, op: Op, ms: seq<Member>, issetMember: Option<nat>, i: nat)
    requires i < |ms| && Reduces(ops, ms, issetMember, i)
    requires !op.WriteIsset? && SlotsOf(ms, issetMember, i) == [OfMember(op.index)]
    requires Apply(op, Nest(Slots(ms, issetMember, i))) == Some(Nest(Slots(ms, issetMember, i + 1)))
    ensures Reduces(ops + [op], ms, issetMember, i + 1)
  {
    hide Nest, Apply, Slots, SlotsOf;
    ChainAppend(ops, op, Nest(Slots(ms, issetMember, 0)));
    StoredAppend(ops, op);
  }

  lemma ReducesTwo(ops: seq<Op>, w: Op, op: Op, ms: seq<Member>, issetMember: Option<nat>, i: nat)
    requires i < |ms| && Reduces(ops, ms, issetMember, i)
    requires w.WriteIsset? && !op.WriteIsset? && SlotsOf(ms, issetMember, i) == [VarInt, OfMember(op.index)]
    requires Apply(w, Nest(Slots(ms, issetMember, i))).Some?
    requires Apply(op, Apply(w, Nest(Slots(ms, issetMember, i))).value) == Some(Nest(Slots(ms, issetMember, i + 1)))
    ensures Reduces(ops + [w, op], ms, issetMember, i + 1)
  {
    hide Nest, Apply, Slots, SlotsOf;
    ChainAppend(ops, w, Nest(Slots(ms, issetMember, 0)));
    ChainAppend(ops + [w], op, Nest(Slots(ms, issetMember, 0)));
    StoredAppend(ops, w);
    StoredAppend(ops + [w], op);
    assert (ops + [w]) + [op] == ops + [w, op];
    var before := SlotsBefore(ms, issetMember, i);
    assert (before + [VarInt]) + [OfMember(op.index)] == before + [VarInt, OfMember(op.index)];
  }

  function MemberOps(issetMember: Option<nat>, i: nat, last: nat, field: nat): seq<Op>
  {
    var op := if i == last then Consume(i) else Delegate(i);
    if HasIsset(issetMember, i) then [WriteIsset(field), op] else [op]
  }

  /** How many isset values the first j operations write. */
  function IssetCount(ops: seq<Op>, j: nat): nat
    requires j <= |ops|
  {
    if j == 0 then 0 else IssetCount(ops, j - 1) + if ops[j - 1].WriteIsset? then 1 else 0
  }

  /** The isset values written by a chain are numbered 0, 1, 2, and so on. */
  ghost predicate IssetsNumbered(ops: seq<Op>)
  {
    forall j :: 0 <= j < |ops| && ops[j].WriteIsset? ==> ops[j].fieldIndex == IssetCount(ops, j)
  }

  lemma {:induction false} IssetCountPrefix(ops: seq<Op>, op: Op, j: nat)
    requires j <= |ops|
    ensures IssetCount(ops + [op], j) == IssetCount(ops, j)
  {
    if j > 0 {
      IssetCountPrefix(ops, op, j - 1);
    }
  }

  lemma NumberedAppend(ops: seq<Op>, op: Op)
    requires IssetsNumbered(ops) && (op.WriteIsset? ==> op.fieldIndex == IssetCount(ops, |ops|))
    ensures IssetsNumbered(ops + [op])
    ensures IssetCount(ops + [op], |ops| + 1) == IssetCount(ops, |ops|) + if op.WriteIsset? then 1 else 0
  {
    forall j | 0 <= j <= |ops|
      ensures IssetCount(ops + [op], j) == IssetCount(ops, j)
    {
      IssetCountPrefix(ops, op, j);
    }
  }

  /**
   `genClassTraversalFunction` makes a chain that stores every slot in order and, applied to the
   static type of the class, type-checks and leaves exactly a unit.
   */
  method GenClassTraversalFunction(ms: seq<Member>, issetMember: Option<nat>) returns (ops: seq<Op>)
    requires |ms| < U64_LIMIT - 1
    ensures Stored(ops) == Slots(ms, issetMember, 0)
    ensures Chain(ops, Nest(Slots(ms, issetMember, 0))) == Some(Unit)
    ensures IssetsNumbered(ops) && IssetLaw(ms, issetMember, Stored(ops))
  {
    hide IssetLaw, Slots, Nest, IsPadding, Chain, Apply, Stored, HasIsset, Reduces, IssetsNumbered, IssetCount;
    var last := GetLastNonPaddingMemberIndex(ms);
    var end := if last == U64_LIMIT - 1 then 0 else last + 1;
    var thriftFieldIdx := 0;
    ops := [];
    StartsWhole(ms, issetMember);
    for i := 0 to end
      invariant Reduces(ops, ms, issetMember, i)
      invariant IssetsNumbered(ops) && thriftFieldIdx == IssetCount(ops, |ops|)
    {
      if IsPadding(ms[i]) {
        ReducesPadding(ops, ms, issetMember, i);
        continue;
      }
      ReducesMember(ops, ms, issetMember, i, last, thriftFieldIdx);
      ghost var start, field := ops, thriftFieldIdx;
      if HasIsset(issetMember, i) {
        NumberedAppend(ops, WriteIsset(thriftFieldIdx));
        ops := ops + [WriteIsset(thriftFieldIdx)];
        thriftFieldIdx := thriftFieldIdx + 1;
      }
      NumberedAppend(ops, if i == last then Consume(i) else Delegate(i));
      ops := ops + [if i == last then Consume(i) else Delegate(i)];
      assert ops == start + MemberOps(issetMember, i, last, field);
    }
    EndsEmpty(ops, ms, issetMember, end);
    SlotsLaw(ms, issetMember);
  }

  lemma StartsWhole(ms: seq<Member>, issetMember: Option<nat>)
    ensures Reduces([], ms, issetMember, 0) && IssetsNumbered([]) && IssetCount([], 0) == 0
  {
  }

  lemma ReducesPadding(ops: seq<Op>, ms: seq<Member>, issetMember: Option<nat>, i: nat)
    requires i < |ms| && IsPadding(ms[i]) && Reduces(ops, ms, issetMember, i)
    ensures Reduces(ops, ms, issetMember, i + 1)
  {
    assert [] + Slots(ms, issetMember, i + 1) == Slots(ms, issetMember, i + 1);
    assert SlotsBefore(ms, issetMember, i) + [] == SlotsBefore(ms, issetMember, i);
  }

  lemma EndsEmpty(ops: seq<Op>, ms: seq<Member>, issetMember: Option<nat>, i: nat)
    requires i <= |ms| && Reduces(ops, ms, issetMember, i) && forall k :: i <= k < |ms| ==> IsPadding(ms[k])
    ensures Stored(ops) == Slots(ms, issetMember, 0)
    ensures Chain(ops, Nest(Slots(ms, issetMember, 0))) == Some(Unit)
  {
    OnlyPaddingLeft(ms, issetMember, i);
    SlotsSplit(ms, issetMember, i);
    assert SlotsBefore(ms, issetMember, i) + [] == SlotsBefore(ms, issetMember, i);
  }

  // ----- the reader's fields

  /** What the reader takes from the data for a field. */
  function SlotsOfField(f: FieldText): seq<StaticType>
  {
    if f.isset then [VarInt, OfMember(f.index)] else [OfMember(f.index)]
  }

  function FieldSlots(fs: seq<FieldText>): seq<StaticType>
  {
    if fs == [] then [] else SlotsOfField(fs[0]) + FieldSlots(fs[1..])
  }

  /** The fields of the members from `i` on. */
  function FieldTexts(ms: seq<Member>, issetMember: Option<nat>, i: nat): (fs: seq<FieldText>)
    requires i <= |ms|
    ensures forall k :: 0 <= k < |fs| ==> fs[k].index < |ms| && fs[k].name == ms[fs[k].index].inputName
    decreases |ms| - i
  {
    if i == |ms| then []
    else if IsPadding(ms[i]) then FieldTexts(ms, issetMember, i + 1)
    else [FieldText(i, ms[i].inputName, HasIsset(issetMember, i))] + FieldTexts(ms, issetMember, i + 1)
  }

  /** The reader takes the slots of the static type, in the order in which the traversal stores them. */
  lemma {:induction false} FieldsReadSlots(ms: seq<Member>, issetMember: Option<nat>, i: nat)
    requires i <= |ms|
    ensures FieldSlots(FieldTexts(ms, issetMember, i)) == Slots(ms, issetMember, i)
    decreases |ms| - i
  {
    if i < |ms| {
      FieldsReadSlots(ms, issetMember, i + 1);
      if IsPadding(ms[i]) {
        assert [] + Slots(ms, issetMember, i + 1) == Slots(ms, issetMember, i + 1);
      } else {
        assert FieldTexts(ms, issetMember, i)[1..] == FieldTexts(ms, issetMember, i + 1);
      }
    }
  }

  /** An isset value is read for every member but the isset member. */
  ghost predicate IssetsNoted(issetMember: Option<nat>, fs: seq<FieldText>)
  {
    forall k :: 0 <= k < |fs| ==> (fs[k].isset <==> issetMember.Some? && issetMember.value != fs[k].index)
  }

  lemma {:induction false} FieldsWithIsset(ms: seq<Member>, issetMember: Option<nat>, i: nat)
    requires i <= |ms|
    ensures IssetsNoted(issetMember, FieldTexts(ms, issetMember, i))
    decreases |ms| - i
  {
    if i < |ms| {
      FieldsWithIsset(ms, issetMember, i + 1);
    }
  }

  lemma FieldsLaw(ms: seq<Member>, issetMember: Option<nat>)
    ensures FieldSlots(FieldTexts(ms, issetMember, 0)) == Slots(ms, issetMember, 0)
    ensures IssetLaw(ms, issetMember, Slots(ms, issetMember, 0))
    ensures IssetsNoted(issetMember, FieldTexts(ms, issetMember, 0))
  {
    hide Slots, FieldTexts, FieldSlots, IssetLaw, IssetsNoted, Nest, Unnest;
    FieldsReadSlots(ms, issetMember, 0);
    FieldsWithIsset(ms, issetMember, 0);
    SlotsLaw(ms, issetMember);
  }

  /** How many of the first i members are not padding. */
  function Count(ms: seq<Member>, i: nat): nat
    requires i <= |ms|
  {
    if i == 0 then 0 else Count(ms, i - 1) + if IsPadding(ms[i - 1]) then 0 else 1
  }

  /** `std::count_if` over the members that are not padding. */
  method CountFields(ms: seq<Member>) returns (n: nat)
    ensures n == Count(ms, |ms|)
  {
    n := 0;
    for i := 0 to |ms|
      invariant n == Count(ms, i)
    {
      if !IsPadding(ms[i]) {
        n := n + 1;
      }
    }
  }

  /**
   `genClassTreeBuilderInstructions` lists one field for each member that is not padding, and reads the
   slots of the static type in the order in which the traversal stores them.
   */
  method GenClassTreeBuilderInstructions(ms: seq<Member>, issetMember: Option<nat>)
    returns (fs: seq<FieldText>, numFields: nat)
    ensures fs == FieldTexts(ms, issetMember, 0) && FieldSlots(fs) == Slots(ms, issetMember, 0)
    ensures numFields == |fs| && IssetLaw(ms, issetMember, FieldSlots(fs))
    ensures IssetsNoted(issetMember, fs)
  {
    hide IssetsNoted, FieldSlots, Slots, HasIsset, IsPadding, IssetLaw;
    numFields := CountFields(ms);
    fs := [];
    for i := 0 to |ms|
      invariant fs + FieldTexts(ms, issetMember, i) == FieldTexts(ms, issetMember, 0) && |fs| == Count(ms, i)
    {
      if IsPadding(ms[i]) {
        continue;
      }
      fs := fs + [FieldText(i, ms[i].inputName, HasIsset(issetMember, i))];
      Join(fs[..|fs| - 1], [fs[|fs| - 1]], FieldTexts(ms, issetMember, i + 1));
    }
    assert fs + [] == fs;
    FieldsLaw(ms, issetMember);
  }
}

/**
 The instructions that drive a reader of the data segment (include/oi/exporters/inst.h,
 include/oi/exporters/ParsedData.h), the elements it produces (include/oi/result/Element.h), and the
 effect of one Field instruction. Fields refer to each other through references of type R, as the
 source's fields do, so an instruction graph may be cyclic.
 */
module Instructions {
  import opened Machine
  import opened DynamicTypes
  import Leb128

  datatype ContainerStats = ContainerStats(capacity: nat, length: nat)

  datatype Data = NoData | PointerData(p: U64) | ScalarData(n: U64) | StringData(s: string)

  datatype Element = Element(
    name: string,
    typePath: seq<string>,
    typeNames: seq<string>,
    staticSize: nat,
    exclusiveSize: nat,
    pointer: Option<U64>,
    data: Data,
    containerStats: Option<ContainerStats>,
    isSet: Option<bool>,
    isPrimitive: bool)

  /** The part of a value that `ParsedData::parse` reads at once; the rest of it is lazy. */
  datatype Parsed = UnitHead | VarIntHead(value: U64) | PairHead | ListHead(length: U64) | SumHead(index: U64)

  datatype Inst<R> = PopTypePath | Repeat(n: nat, field: R) | FieldInst(field: R)

  /** What a handler makes of an element; it may also have read some of the lazy data. */
  datatype Handled<R> = Handled(element: Element, pushed: seq<Inst<R>>, rest: seq<Byte>)

  /** None stands for undefined behaviour or an exception. */
  type Handler<R> = (Element, Parsed, seq<Byte>) -> Option<Handled<R>>

  datatype Processor<R> = Processor(dy: Dynamic, handler: Handler<R>)

  datatype Field<R> = Field(
    staticSize: nat,
    exclusiveSize: nat,
    name: string,
    typeNames: seq<string>,
    fields: seq<R>,
    processors: seq<Processor<R>>,
    isPrimitive: bool)

  /** The instruction graph, and the formatting of a pointer by a C++ stream. */
  datatype Program<!R> = Program(deref: R -> Field<R>, showPointer: U64 -> string)

  /** `ParsedData::parse`: a number running off the end, or an index out of range, is undefined. */
  function ParseHead(dy: Dynamic, data: seq<Byte>): Option<(Parsed, seq<Byte>)>
  {
    match dy
    case Unit => Some((UnitHead, data))
    case Pair(_, _) => Some((PairHead, data))
    case VarInt =>
      (match Leb128.Read(data) case Value(v, rest) => Some((VarIntHead(v), rest)) case _ => None)
    case List(_) =>
      (match Leb128.Read(data) case Value(v, rest) => Some((ListHead(v), rest)) case _ => None)
    case Sum(ts) =>
      (match Leb128.Read(data)
       case Value(v, rest) => if v < |ts| then Some((SumHead(v), rest)) else None
       case _ => None)
  }

  /** The processors of a field, one after the other. */
  function RunProcessors<R>(ps: seq<Processor<R>>, soFar: Handled<R>): Option<Handled<R>>
  {
    if ps == [] then Some(soFar)
    else
      match ParseHead(ps[0].dy, soFar.rest)
      case None => None
      case Some((head, rest)) =>
        match ps[0].handler(soFar.element, head, rest)
        case None => None
        case Some(h) => RunProcessors(ps[1..], Handled(h.element, soFar.pushed + h.pushed, h.rest))
  }

  function Decimal(n: nat): string
  {
    if n < 10 then ["0123456789"[n]] else Decimal(n / 10) + ["0123456789"[n % 10]]
  }

  /** `genNameFromData`. */
  function NameFromData(showPointer: U64 -> string, d: Data): Option<string>
  {
    match d
    case NoData => None
    case StringData(s) => Some("[" + s + "]")
    case PointerData(p) => Some("[" + showPointer(p) + "]")
    case ScalarData(n) => Some("[" + Decimal(n) + "]")
  }

  function FreshElement<R>(f: Field<R>, path: seq<string>): Element
  {
    Element(f.name, path + [f.name], f.typeNames, f.staticSize, f.exclusiveSize, None, NoData, None, None, f.isPrimitive)
  }

  /**
   The element of a Field instruction met below `path`, with what its processors pushed and left to
   read. The element's type path is a view of the iterator's, so it shows a new name as well.
   */
  function Visit<R>(prog: Program<R>, f: Field<R>, path: seq<string>, data: seq<Byte>): Option<Handled<R>>
  {
    match RunProcessors(f.processors, Handled(FreshElement(f, path), [], data))
    case None => None
    case Some(h) =>
      match NameFromData(prog.showPointer, h.element.data)
      case None => Some(h.(element := h.element.(typePath := path + [f.name])))
      case Some(name) => Some(h.(element := h.element.(name := name, typePath := path + [name])))
  }

  // ----- the names of elements

  predicate IsDigit(c: char)
  {
    '0' <= c <= '9'
  }

  /** The number that decimal digits stand for. */
  function NumberOf(digits: string): nat
    requires forall c :: c in digits ==> IsDigit(c)
  {
    if digits == [] then 0
    else
      assert IsDigit(digits[|digits| - 1]);
      NumberOf(digits[..|digits| - 1]) * 10 + (digits[|digits| - 1] as int - '0' as int)
  }

  /** Decimal digits for the number, without leading zeros. */
  ghost predicate IsNumeral(digits: string, n: nat)
  {
    && digits != [] && (digits[0] != '0' || |digits| == 1)
    && (forall c :: c in digits ==> IsDigit(c))
    && NumberOf(digits) == n
  }

  /**
   The name of an element of the field `own`: a number, a string or a pointer that a handler has left gives
   a new name in brackets, which the type path ends in as well. Without any, the path ends in the field's name.
   */
  ghost predicate Named(showPointer: U64 -> string, own: string, el: Element)
  {
    && el.typePath != []
    && var last := el.typePath[|el.typePath| - 1];
       match el.data
       case NoData => last == own
       case StringData(s) => el.name == last == ['['] + s + [']']
       case PointerData(p) => el.name == last == ['['] + showPointer(p) + [']']
       case ScalarData(n) =>
         el.name == last && |last| >= 2 && last[0] == '[' && last[|last| - 1] == ']' && IsNumeral(last[1..|last| - 1], n)
  }

  /** Elements for different numbers have different names. */
  lemma NumbersDiffer(showPointer: U64 -> string, own: string, el: Element, other: string, fl: Element)
    requires Named(showPointer, own, el) && Named(showPointer, other, fl)
    requires el.data.ScalarData? && fl.data.ScalarData? && el.data != fl.data
    ensures el.name != fl.name
  {
  }

  lemma {:induction false} DecimalIsNumeral(n: nat)
    ensures IsNumeral(Decimal(n), n)
    ensures n > 0 ==> Decimal(n)[0] != '0'
  {
    if n >= 10 {
      var front, last := Decimal(n / 10), "0123456789"[n % 10];
      DecimalIsNumeral(n / 10);
      assert Decimal(n)[..|Decimal(n)| - 1] == front;
      assert last as int - '0' as int == n % 10;
    }
  }

  lemma BracketedNumeral(digits: string)
    ensures ("[" + digits + "]")[1..|digits| + 1] == digits
  {
  }

  lemma VisitNames<R>(prog: Program<R>, f: Field<R>, path: seq<string>, data: seq<Byte>)
    requires Visit(prog, f, path, data).Some?
    ensures var el := Visit(prog, f, path, data).value.element;
            el.typePath != [] && Named(prog.showPointer, f.name, el) && el.typePath[..|el.typePath| - 1] == path
  {
    hide Decimal, IsNumeral, RunProcessors;
    var el := Visit(prog, f, path, data).value.element;
    assert el.typePath == path + [el.typePath[|path|]];
    if el.data.ScalarData? {
      DecimalIsNumeral(el.data.n);
      BracketedNumeral(Decimal(el.data.n));
    }
  }

  function AsInsts<R>(rs: seq<R>): (s: seq<Inst<R>>)
    ensures |s| == |rs| && forall i :: 0 <= i < |rs| ==> s[i] == FieldInst(rs[i])
  {
    if rs == [] then [] else [FieldInst(rs[0])] + AsInsts(rs[1..])
  }

  function Reversed<T>(s: seq<T>): (r: seq<T>)
    ensures |r| == |s| && forall i :: 0 <= i < |s| ==> r[i] == s[|s| - 1 - i]
  {
    if s == [] then [] else Reversed(s[1..]) + [s[0]]
  }

  /** The instructions of a field's children: its own fields will be met before the pushed ones. */
  function ChildStack<R>(f: Field<R>, pushed: seq<Inst<R>>): seq<Inst<R>>
  {
    pushed + Reversed(AsInsts(f.fields))
  }
}

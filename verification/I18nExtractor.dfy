/** The front end of the i18n extractor: string expressions are evaluated and messages read from composite literals. */
module I18nExtractor {
  import opened Wrappers
  import opened Utf8
  import opened GoLiterals

  /** An expression of the source, as far as the extractor tells expressions apart. */
  datatype Expr =
    | Literal(isString: bool, text: bytes)
    | Binary(isAdd: bool, left: Expr, right: Expr)
    | Paren(inner: Expr)
    | OtherExpr

  function ExtractStringValue(e: Expr): Option<bytes> {
    match e
    case Literal(isString, text) => if isString then Unquote(text) else None
    case Binary(isAdd, left, right) =>
      if !isAdd then None
      else (match ExtractStringValue(left)
            case None => None
            case Some(l) =>
              match ExtractStringValue(right)
              case None => None
              case Some(r) => Some(l + r))
    case Paren(inner) => ExtractStringValue(inner)
    case OtherExpr => None
  }

  /** The string literals of an expression from left to right, when it has nothing but literals, + and parentheses. */
  function Leaves(e: Expr): Option<seq<bytes>> {
    match e
    case Literal(isString, text) => if isString then Some([text]) else None
    case Binary(isAdd, left, right) =>
      if isAdd && Leaves(left).Some?
          && Leaves(right).Some? then Some(Leaves(left).value + Leaves(right).value) else None
    case Paren(inner) => Leaves(inner)
    case OtherExpr => None
  }

  predicate AllUnquote(leaves: seq<bytes>) {
    forall i :: 0 <= i < |leaves| ==> Unquote(leaves[i]).Some?
  }

  function Concatenated(leaves: seq<bytes>): bytes
    requires AllUnquote(leaves)
  {
    if leaves == [] then [] else Unquote(leaves[0]).value + Concatenated(leaves[1..])
  }

  lemma {:induction false} ConcatenatedSplits(a: seq<bytes>, b: seq<bytes>)
    requires AllUnquote(a) && AllUnquote(b)
    ensures AllUnquote(a + b) && Concatenated(a + b) == Concatenated(a) + Concatenated(b)
  {
    if a == [] {
      assert a + b == b;
    } else {
      ConcatenatedSplits(a[1..], b);
      assert (a + b)[1..] == a[1..] + b;
      var first, x, y := Unquote(a[0]).value, Concatenated(a[1..]), Concatenated(b);
      assert first + (x + y) == first + x + y;
    }
  }

  lemma BothMustUnquote(a: seq<bytes>, b: seq<bytes>)
    ensures AllUnquote(a + b) <==> AllUnquote(a) && AllUnquote(b)
  {
    if AllUnquote(a + b) {
      assert forall i :: 0 <= i < |a| ==> a[i] == (a + b)[i];
      assert forall i :: 0 <= i < |b| ==> b[i] == (a + b)[|a| + i];
    }
  }

  lemma SingleLeaf(text: bytes)
    ensures AllUnquote([text]) <==> Unquote(text).Some?
    ensures Unquote(text).Some? ==> Concatenated([text]) == Unquote(text).value
  {
    var leaves := [text];
    assert leaves[0] == text && leaves[1..] == [];
    if Unquote(text).Some? { assert Unquote(text).value + Concatenated([]) == Unquote(text).value; }
  }

  /**
   An expression has a value exactly when it is made of string literals, + and parentheses and every literal can be
   unquoted, and its value is then the literals' values in order, however they are nested.
   */
  lemma {:induction false} ValueIsTheLeaves(e: Expr)
    ensures ExtractStringValue(e) ==
            if Leaves(e).Some? && AllUnquote(Leaves(e).value) then Some(Concatenated(Leaves(e).value)) else None
  {
    match e
    case Literal(isString, text) =>
      SingleLeaf(text);
    case Binary(isAdd, left, right) =>
      ValueIsTheLeaves(left);
      ValueIsTheLeaves(right);
      if Leaves(e).Some? {
        var l, r := Leaves(left).value, Leaves(right).value;
        BothMustUnquote(l, r);
        if AllUnquote(l) && AllUnquote(r) { ConcatenatedSplits(l, r); }
      }
    case Paren(inner) => ValueIsTheLeaves(inner);
    case OtherExpr =>
  }

  /** A leaf as the Go scanner lets it through, naming no byte from 0x80 on by its number. */
  predicate PlainLeaf(text: bytes) {
    ValidUtf8(text) && (text != [] && text[0] == QUOTE ==> !NamesHighByte(text[1..]))
  }

  /** Plain leaves concatenate to well-formed text. */
  lemma {:induction false} PlainLeavesAreValid(leaves: seq<bytes>)
    requires AllUnquote(leaves) && forall i :: 0 <= i < |leaves| ==> PlainLeaf(leaves[i])
    ensures ValidUtf8(Concatenated(leaves))
  {
    if leaves != [] {
      LiteralIsValid(leaves[0]);
      PlainLeavesAreValid(leaves[1..]);
      ValidAppends(Unquote(leaves[0]).value, Concatenated(leaves[1..]));
    }
  }

  // Messages

  const KEY := "Key"
  const DEFAULT_VALUE := "DefaultValue"

  /** An element of a composite literal: a field with its value, or anything else. */
  datatype Element = Field(name: string, value: Expr) | OtherElement

  datatype Message = Message(key: bytes, defaultValue: bytes)

  /** The value a field ends with: that of its last element that could be extracted, empty when there is none. */
  function FieldValue(elements: seq<Element>, name: string): bytes
    decreases |elements|
  {
    if elements == [] then [] else
    var last := elements[|elements| - 1];
    if last.Field? && last.name == name
        && ExtractStringValue(last.value).Some? then ExtractStringValue(last.value).value
    else FieldValue(elements[..|elements| - 1], name)
  }

  /** A message needs both a key and a default value; empty ones do not count. */
  method ExtractMessage(elements: seq<Element>) returns (message: Option<Message>)
    ensures var key, defaultValue := FieldValue(elements, "Key"), FieldValue(elements, "DefaultValue");
            message == if key == [] || defaultValue == [] then None else Some(Message(key, defaultValue))
  {
    var key: bytes, defaultValue: bytes := [], [];
    var i := 0;
    while i < |elements|
      invariant 0 <= i <= |elements|
      invariant key == FieldValue(elements[..i], KEY)
      invariant defaultValue == FieldValue(elements[..i], DEFAULT_VALUE)
    {
      assert elements[..i + 1][..i] == elements[..i];
      if elements[i].Field? {
        var value := ExtractStringValue(elements[i].value);
        if value.Some? {
          if elements[i].name == KEY {
            key := value.value;
          } else if elements[i].name == DEFAULT_VALUE {
            defaultValue := value.value;
          }
        }
      }
      i := i + 1;
    }
    assert elements[..i] == elements;
    message := if key == [] || defaultValue == [] then None else Some(Message(key, defaultValue));
  }

  /** The last element of a name whose value can be extracted decides the field. */
  lemma {:induction false} FieldValueIsTheLast(elements: seq<Element>, name: string, i: nat)
    requires i < |elements| && elements[i].Field? && elements[i].name == name
    requires ExtractStringValue(elements[i].value).Some?
    requires forall j :: i < j < |elements| && elements[j].Field? && elements[j].name == name ==>
               ExtractStringValue(elements[j].value).None?
    ensures Some(FieldValue(elements, name)) == ExtractStringValue(elements[i].value)
    decreases |elements|
  {
    if i < |elements| - 1 { FieldValueIsTheLast(elements[..|elements| - 1], name, i); }
  }

  lemma {:induction false} NoFieldIsEmpty(elements: seq<Element>, name: string)
    requires forall j :: 0 <= j < |elements| && elements[j].Field? && elements[j].name == name ==>
               ExtractStringValue(elements[j].value).None?
    ensures FieldValue(elements, name) == []
    decreases |elements|
  {
    if elements != [] { NoFieldIsEmpty(elements[..|elements| - 1], name); }
  }
}

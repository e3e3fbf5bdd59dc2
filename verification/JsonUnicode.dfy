/** Rejecting decoded JSON documents that hold strings no UTF-8 text could contain. */
module JsonUnicode {

  /** Text as code points: a decoder may leave lone surrogates in it. */
  type CodePoints = seq<nat>

  datatype Json = Text(chars: CodePoints) | Dict(keys: seq<CodePoints>, values: seq<Json>) | List(elements: seq<Json>) | Scalar

  predicate IsSurrogate(c: nat) {
    0xD800 <= c <= 0xDFFF
  }

  /** What UTF-8 can encode (section 3 of RFC 3629). */
  predicate Encodable(chars: CodePoints) {
    forall c :: c in chars ==> !IsSurrogate(c)
  }

  /** Every string of the document, at any depth and whether key or value, can be encoded. */
  predicate ValidUnicode(value: Json) {
    match value
    case Text(chars) => Encodable(chars)
    case Dict(keys, values) => (forall k :: k in keys ==> Encodable(k)) && (forall v :: v in values ==> ValidUnicode(v))
    case List(elements) => forall v :: v in elements ==> ValidUnicode(v)
    case Scalar => true
  }

  /** The number of values in a document, keys included. */
  function Size(value: Json): (n: nat)
    ensures n > 0
    decreases value
  {
    match value
    case Text(_) => 1
    case Dict(keys, values) => 1 + |keys| + SizeAll(values)
    case List(elements) => 1 + SizeAll(elements)
    case Scalar => 1
  }

  function SizeAll(values: seq<Json>): nat
    decreases values
  {
    if values == [] then 0 else Size(values[0]) + SizeAll(values[1..])
  }

  lemma {:induction false} SizeAppend(a: seq<Json>, b: seq<Json>)
    ensures SizeAll(a + b) == SizeAll(a) + SizeAll(b)
  {
    if a == [] {
      assert a + b == b;
    } else {
      SizeAppend(a[1..], b);
      assert (a + b)[1..] == a[1..] + b;
    }
  }

  function Texts(keys: seq<CodePoints>): seq<Json> {
    seq(|keys|, i requires 0 <= i < |keys| => Text(keys[i]))
  }

  lemma {:induction false} SizeOfTexts(keys: seq<CodePoints>)
    ensures SizeAll(Texts(keys)) == |keys|
  {
    if keys == [] {
    } else {
      SizeOfTexts(keys[1..]);
      assert Texts(keys)[1..] == Texts(keys[1..]);
    }
  }

  predicate AllValid(values: seq<Json>) {
    forall i :: 0 <= i < |values| ==> ValidUnicode(values[i])
  }

  lemma AllValidAppend(a: seq<Json>, b: seq<Json>)
    ensures AllValid(a + b) <==> AllValid(a) && AllValid(b)
  {
    assert forall i :: 0 <= i < |a| ==> (a + b)[i] == a[i];
    assert forall i :: 0 <= i < |b| ==> (a + b)[|a| + i] == b[i];
  }

  lemma ValidTexts(keys: seq<CodePoints>)
    ensures AllValid(Texts(keys)) <==> forall k :: k in keys ==> Encodable(k)
  {
    assert forall i :: 0 <= i < |keys| ==> Texts(keys)[i] == Text(keys[i]);
    if AllValid(Texts(keys)) {
      forall k | k in keys
        ensures Encodable(k)
      {
        var i :| 0 <= i < |keys| && keys[i] == k;
        assert ValidUnicode(Texts(keys)[i]);
      }
    }
  }

  /** `_validate_json_unicode`: a stack of values still to look at replaces the recursion. */
  method ValidateJsonUnicode(value: Json) returns (valid: bool)
    ensures valid <==> ValidUnicode(value)
  {
    var pending := [value];
    while pending != []
      invariant AllValid(pending) <==> ValidUnicode(value)
      decreases SizeAll(pending)
    {
      var rest, current := pending[..|pending| - 1], pending[|pending| - 1];
      assert pending == rest + [current];
      SizeAppend(rest, [current]);
      AllValidAppend(rest, [current]);
      assert AllValid([current]) <==> ValidUnicode(current) by {
        assert [current][0] == current;
      }
      pending := rest;
      match current {
        case Text(chars) =>
          if !Encodable(chars) {
            return false;
          }
        case Dict(keys, values) =>
          ValidTexts(keys);
          AllValidAppend(rest, Texts(keys));
          AllValidAppend(rest + Texts(keys), values);
          SizeAppend(rest, Texts(keys));
          SizeAppend(rest + Texts(keys), values);
          SizeOfTexts(keys);
          pending := pending + Texts(keys);
          pending := pending + values;
        case List(elements) =>
          AllValidAppend(rest, elements);
          SizeAppend(rest, elements);
          pending := pending + elements;
        case Scalar =>
      }
    }
    return true;
  }
}

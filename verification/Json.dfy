/** The scanner that finds where the metadata object ends (json_object_end in scripts/astrea.py). */
module Json {
  import opened Wrappers
  import opened Bytes

  const QUOTE: byte := 0x22
  const BACKSLASH: byte := 0x5C
  const OPEN: byte := 0x7B
  const CLOSE: byte := 0x7D

  /** Scanner result from position i in the given state: one past the brace that closes the
      first object, or None where the code raises. */
  function Scan(data: Bytes, i: nat, depth: int, inString: bool, escape: bool): (r: Option<nat>)
    requires i <= |data|
    ensures r.Some? ==> i < r.value <= |data|
    decreases |data| - i
  {
    if i == |data| then None
    else if escape then Scan(data, i + 1, depth, inString, false)
    else if data[i] == 0x5C && inString then Scan(data, i + 1, depth, inString, true)
    else if data[i] == 0x22 then Scan(data, i + 1, depth, !inString, false)
    else if inString then Scan(data, i + 1, depth, inString, false)
    else if data[i] == 0x7B then Scan(data, i + 1, depth + 1, inString, false)
    else if data[i] == 0x7D then
      if depth == 1 then Some(i + 1) else Scan(data, i + 1, depth - 1, inString, false)
    else Scan(data, i + 1, depth, inString, false)
  }

  function ObjectEnd(data: Bytes): (r: Option<nat>)
    ensures r.Some? ==> 0 < r.value <= |data|
  {
    Scan(data, 0, 0, false, false)
  }

  method JsonObjectEnd(data: Bytes) returns (r: Option<nat>)
    ensures r == ObjectEnd(data)
  {
    var depth: int, inString, escape := 0, false, false;
    for i := 0 to |data|
      invariant Scan(data, i, depth, inString, escape) == ObjectEnd(data)
    {
      var b := data[i];
      if escape {
        escape := false;
      } else if b == BACKSLASH && inString {
        escape := true;
      } else if b == QUOTE {
        inString := !inString;
      } else if inString {
      } else if b == OPEN {
        depth := depth + 1;
      } else if b == CLOSE {
        depth := depth - 1;
        if depth == 0 {
          return Some(i + 1);
        }
      }
    }
    r := None;
  }

  /** The scan never looks past the object: what follows it does not matter. */
  lemma {:induction false} ScanIgnoresRest(data: Bytes, other: Bytes, i: nat, depth: int, inString: bool, escape: bool)
    requires i <= |data|
    requires Scan(data, i, depth, inString, escape).Some?
    requires var n := Scan(data, i, depth, inString, escape).value; n <= |other| && data[..n] == other[..n]
    ensures Scan(other, i, depth, inString, escape) == Scan(data, i, depth, inString, escape)
    decreases |data| - i
  {
    var n := Scan(data, i, depth, inString, escape).value;
    assert data[i] == data[..n][i] == other[i];
    if escape {
      ScanIgnoresRest(data, other, i + 1, depth, inString, false);
    } else if data[i] == BACKSLASH && inString {
      ScanIgnoresRest(data, other, i + 1, depth, inString, true);
    } else if data[i] == QUOTE {
      ScanIgnoresRest(data, other, i + 1, depth, !inString, false);
    } else if inString {
      ScanIgnoresRest(data, other, i + 1, depth, inString, false);
    } else if data[i] == OPEN {
      ScanIgnoresRest(data, other, i + 1, depth + 1, inString, false);
    } else if data[i] == CLOSE {
      if depth != 1 {
        ScanIgnoresRest(data, other, i + 1, depth - 1, inString, false);
      }
    } else {
      ScanIgnoresRest(data, other, i + 1, depth, inString, false);
    }
  }

  lemma {:induction false} ObjectEndIgnoresRest(data: Bytes, other: Bytes)
    requires ObjectEnd(data).Some?
    requires var n := ObjectEnd(data).value; n <= |other| && data[..n] == other[..n]
    ensures ObjectEnd(other) == ObjectEnd(data)
  {
    ScanIgnoresRest(data, other, 0, 0, false, false);
  }

  // ---- JSON objects ----

  /** The inside of a string literal: plain bytes and backslash escapes. */
  datatype StringBody = EndQuote | Raw(b: byte, more: StringBody) | Escaped(b: byte, more: StringBody)

  /** The inside of an object, seen only as far as nesting goes: string literals, nested objects
      and every other byte (punctuation, numbers, whitespace, brackets). The text of every JSON
      object is `{`, such an inside, `}`. */
  datatype Inside =
    | Nothing
    | Other(b: byte, rest: Inside)
    | Text(body: StringBody, rest: Inside)
    | Nested(inner: Inside, rest: Inside)

  predicate StringOk(s: StringBody) {
    match s
    case EndQuote => true
    case Raw(b, more) => b != QUOTE && b != BACKSLASH && StringOk(more)
    case Escaped(_, more) => StringOk(more)
  }

  predicate InsideOk(p: Inside) {
    match p
    case Nothing => true
    case Other(b, rest) => b != QUOTE && b != OPEN && b != CLOSE && InsideOk(rest)
    case Text(body, rest) => StringOk(body) && InsideOk(rest)
    case Nested(inner, rest) => InsideOk(inner) && InsideOk(rest)
  }

  function StringBytes(s: StringBody): Bytes {
    match s
    case EndQuote => [QUOTE]
    case Raw(b, more) => [b] + StringBytes(more)
    case Escaped(b, more) => [BACKSLASH] + ([b] + StringBytes(more))
  }

  function InsideBytes(p: Inside): Bytes {
    match p
    case Nothing => []
    case Other(b, rest) => [b] + InsideBytes(rest)
    case Text(body, rest) => [QUOTE] + (StringBytes(body) + InsideBytes(rest))
    case Nested(inner, rest) => [OPEN] + (InsideBytes(inner) + ([CLOSE] + InsideBytes(rest)))
  }

  function ObjectBytes(p: Inside): Bytes {
    [OPEN] + (InsideBytes(p) + [CLOSE])
  }

  lemma {:induction false} ScanString(data: Bytes, i: nat, depth: int, s: StringBody)
    requires StringOk(s) && At(data, i, StringBytes(s))
    ensures i + |StringBytes(s)| <= |data|
    ensures Scan(data, i, depth, true, false) == Scan(data, i + |StringBytes(s)|, depth, false, false)
    decreases s
  {
    match s
    case EndQuote =>
      assert data[i] == data[i..i + 1][0] == QUOTE;
    case Raw(b, more) =>
      AtConcat(data, i, [b], StringBytes(more));
      assert data[i] == data[i..i + 1][0] == b;
      ScanString(data, i + 1, depth, more);
    case Escaped(b, more) =>
      AtConcat(data, i, [BACKSLASH], [b] + StringBytes(more));
      AtConcat(data, i + 1, [b], StringBytes(more));
      assert data[i] == data[i..i + 1][0] == BACKSLASH;
      ScanString(data, i + 2, depth, more);
  }

  /** One scanner step outside a string literal. */
  lemma {:induction false} ScanStep(data: Bytes, i: nat, depth: int, b: byte)
    requires At(data, i, [b])
    ensures i + 1 <= |data|
    ensures Scan(data, i, depth, false, false) ==
      if b == QUOTE then Scan(data, i + 1, depth, true, false)
      else if b == OPEN then Scan(data, i + 1, depth + 1, false, false)
      else if b == CLOSE then if depth == 1 then Some(i + 1) else Scan(data, i + 1, depth - 1, false, false)
      else Scan(data, i + 1, depth, false, false)
  {
    assert data[i] == data[i..i + 1][0] == b;
  }

  lemma {:induction false} ScanInside(data: Bytes, i: nat, depth: int, p: Inside)
    requires InsideOk(p) && At(data, i, InsideBytes(p)) && depth >= 1
    ensures i + |InsideBytes(p)| <= |data|
    ensures Scan(data, i, depth, false, false) == Scan(data, i + |InsideBytes(p)|, depth, false, false)
    decreases p, 1
  {
    hide Scan;
    match p
    case Nothing =>
    case Other(b, rest) =>
      AtConcat(data, i, [b], InsideBytes(rest));
      ScanStep(data, i, depth, b);
      ScanInside(data, i + 1, depth, rest);
    case Text(body, rest) =>
      ScanText(data, i, depth, body, rest);
    case Nested(inner, rest) =>
      ScanNested(data, i, depth, inner, rest);
  }

  lemma {:induction false} ScanText(data: Bytes, i: nat, depth: int, body: StringBody, rest: Inside)
    requires StringOk(body) && InsideOk(rest) && At(data, i, InsideBytes(Text(body, rest))) && depth >= 1
    ensures i + |InsideBytes(Text(body, rest))| <= |data|
    ensures Scan(data, i, depth, false, false) == Scan(data, i + |InsideBytes(Text(body, rest))|, depth, false, false)
    decreases Text(body, rest), 0
  {
    var s := StringBytes(body);
    assert InsideBytes(Text(body, rest)) == [QUOTE] + (s + InsideBytes(rest));
    hide Scan, InsideBytes, StringBytes, At;
    AtConcat(data, i, [QUOTE], s + InsideBytes(rest));
    AtConcat(data, i + 1, s, InsideBytes(rest));
    ScanStep(data, i, depth, QUOTE);
    ScanString(data, i + 1, depth, body);
    ScanInside(data, i + 1 + |s|, depth, rest);
  }

  lemma {:induction false} ScanNested(data: Bytes, i: nat, depth: int, inner: Inside, rest: Inside)
    requires InsideOk(inner) && InsideOk(rest) && At(data, i, InsideBytes(Nested(inner, rest))) && depth >= 1
    ensures i + |InsideBytes(Nested(inner, rest))| <= |data|
    ensures Scan(data, i, depth, false, false) == Scan(data, i + |InsideBytes(Nested(inner, rest))|, depth, false,
      false)
    decreases Nested(inner, rest), 0
  {
    hide Scan, InsideBytes, At, InsideOk;
    var s := InsideBytes(inner);
    var j := i + 1 + |s|;
    NestedParts(data, i, inner, rest);
    ScanStep(data, i, depth, OPEN);
    ScanInside(data, i + 1, depth + 1, inner);
    ScanStep(data, j, depth + 1, CLOSE);
    ScanInside(data, j + 1, depth, rest);
  }

  lemma {:induction false} NestedParts(data: Bytes, i: nat, inner: Inside, rest: Inside)
    requires At(data, i, InsideBytes(Nested(inner, rest)))
    ensures At(data, i, [OPEN]) && At(data, i + 1, InsideBytes(inner))
    ensures var j := i + 1 + |InsideBytes(inner)|; At(data, j, [CLOSE]) && At(data, j + 1, InsideBytes(rest))
    ensures |InsideBytes(Nested(inner, rest))| == 1 + |InsideBytes(inner)| + 1 + |InsideBytes(rest)|
  {
    var s, t := InsideBytes(inner), InsideBytes(rest);
    assert InsideBytes(Nested(inner, rest)) == [OPEN] + (s + ([CLOSE] + t));
    hide *;
    AtConcat(data, i, [OPEN], s + ([CLOSE] + t));
    AtConcat(data, i + 1, s, [CLOSE] + t);
    AtConcat(data, i + 1 + |s|, [CLOSE], t);
  }

  /** For every JSON object and whatever bytes follow it, the scan stops exactly at its end. */
  lemma {:induction false} ObjectEndIsExact(p: Inside, rest: Bytes)
    requires InsideOk(p)
    ensures ObjectEnd(ObjectBytes(p) + rest) == Some(|ObjectBytes(p)|)
  {
    var data, s := ObjectBytes(p) + rest, InsideBytes(p);
    assert data[..|ObjectBytes(p)|] == ObjectBytes(p);
    assert At(data, 0, ObjectBytes(p));
    hide Scan, At;
    AtConcat(data, 0, [OPEN], s + [CLOSE]);
    AtConcat(data, 1, s, [CLOSE]);
    ScanStep(data, 0, 0, OPEN);
    ScanInside(data, 1, 1, p);
    ScanStep(data, 1 + |s|, 1, CLOSE);
  }
}

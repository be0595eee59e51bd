/** Cutting the first complete JSON object out of a model's answer, against a printer for JSON texts. */
module JsonScan {
  import opened Common

  // ---- JSON texts, as sections 2 to 7 of RFC 8259 build them ---------------------------------------------------

  type Space = c: char | c in {' ', '\t', '\n', '\r'} witness ' '
  type Hex = c: char | '0' <= c <= '9' || 'a' <= c <= 'f' || 'A' <= c <= 'F' witness '0'
  type Digit = c: char | '0' <= c <= '9' witness '0'
  type Unescaped = c: char | c >= ' ' && c != '"' && c != '\\' witness 'a'
  type Escaped = c: char | c in {'"', '\\', '/', 'b', 'f', 'n', 'r', 't'} witness 'n'

  datatype Piece = Plain(c: Unescaped) | Short(e: Escaped) | Long(a: Hex, b: Hex, c1: Hex, d: Hex)

  datatype Exponent = NoExponent | Exponent(capital: bool, sign: Sign, digits: seq<Digit>)
  datatype Sign = Unsigned | Plus | Minus

  datatype Json =
    | Null | True | False
    | Number(negative: bool, whole: seq<Digit>, fraction: seq<Digit>, exponent: Exponent)
    | Text(pieces: seq<Piece>)
    | Array(pad: seq<Space>, items: Items)
    | Object(inner: seq<Space>, members: Members)

  datatype Items = NoItems | Items(before: seq<Space>, value: Json, after: seq<Space>, others: Items)

  datatype Members =
    | NoMembers
    | Members(lead: seq<Space>, key: seq<Piece>, gap: seq<Space>, pre: seq<Space>, item: Json, post: seq<Space>,
              more: Members)

  function PrintPiece(p: Piece): string {
    match p
    case Plain(c) => [c]
    case Short(e) => ['\\', e]
    case Long(a, b, c, d) => ['\\', 'u', a, b, c, d]
  }

  function PrintPieces(ps: seq<Piece>): string {
    if ps == [] then "" else PrintPiece(ps[0]) + PrintPieces(ps[1..])
  }

  function PrintText(ps: seq<Piece>): string { "\"" + PrintPieces(ps) + "\"" }

  function PrintNumber(n: Json): string
    requires n.Number?
  {
    (if n.negative then "-" else "") + n.whole + (if n.fraction == [] then "" else "." + n.fraction)
    + match n.exponent
      case NoExponent => ""
      case Exponent(capital, sign, digits) =>
        (if capital then "E" else "e")
        + (match sign case Unsigned => "" case Plus => "+" case Minus => "-") + digits
  }

  function Print(v: Json): string {
    match v
    case Null => "null"
    case True => "true"
    case False => "false"
    case Number(_, _, _, _) => PrintNumber(v)
    case Text(pieces) => PrintText(pieces)
    case Array(pad, items) => "[" + pad + PrintItems(items) + "]"
    case Object(inner, members) => "{" + inner + PrintMembers(members) + "}"
  }

  function PrintItems(xs: Items): string {
    match xs
    case NoItems => ""
    case Items(before, value, after, others) =>
      before + Print(value) + after + (if others.NoItems? then "" else "," + PrintItems(others))
  }

  function PrintMembers(ms: Members): string {
    match ms
    case NoMembers => ""
    case Members(lead, key, gap, pre, item, post, more) =>
      lead + PrintText(key) + gap + ":" + pre + Print(item) + post
      + (if more.NoMembers? then "" else "," + PrintMembers(more))
  }

  // ---- the scanner ---------------------------------------------------------------------------------------------

  datatype State = State(depth: int, inString: bool, escaped: bool)

  function Advance(s: State, c: char): State {
    if s.inString then
      if s.escaped then s.(escaped := false)
      else if c == '\\' then s.(escaped := true)
      else if c == '"' then s.(inString := false)
      else s
    else if c == '"' then s.(inString := true)
    else if c == '{' then s.(depth := s.depth + 1)
    else if c == '}' then s.(depth := s.depth - 1)
    else s
  }

  predicate Closes(s: State, c: char) { !s.inString && c == '}' && s.depth == 1 }

  /** How many characters it takes to close the object. */
  function Length(s: State, text: string): Option<nat>
    decreases |text|
  {
    if text == "" then None
    else if Closes(s, text[0]) then Some(1)
    else Shift(1, Length(Advance(s, text[0]), text[1..]))
  }

  function Shift(n: nat, o: Option<nat>): Option<nat> { if o.None? then None else Some(n + o.value) }

  function FirstBrace(text: string): nat {
    if text == "" || text[0] == '{' then 0 else 1 + FirstBrace(text[1..])
  }

  const START := State(0, false, false)

  function Unwrap(text: string): string {
    var start := FirstBrace(text);
    if start >= |text| then text
    else
      var length := Length(START, text[start..]);
      if length.None? || start + length.value > |text| then text else text[start..start + length.value]
  }

  lemma {:induction false} LengthWithin(s: State, text: string)
    ensures Length(s, text).Some? ==> 1 <= Length(s, text).value <= |text|
    decreases |text|
  {
    if text != "" { LengthWithin(Advance(s, text[0]), text[1..]); }
  }

  lemma {:induction false} FirstBraceExact(text: string)
    ensures FirstBrace(text) <= |text| && '{' !in text[..FirstBrace(text)]
    ensures FirstBrace(text) < |text| ==> text[FirstBrace(text)] == '{'
  {
    if text != "" && text[0] != '{' {
      FirstBraceExact(text[1..]);
      var n := FirstBrace(text[1..]);
      assert text[..1 + n] == [text[0]] + text[1..][..n];
    }
  }

  lemma LengthAt(s: State, text: string, i: nat)
    requires i < |text|
    ensures Length(s, text[i..])
            == if Closes(s, text[i]) then Some(1) else Shift(1, Length(Advance(s, text[i]), text[i + 1..]))
  {
    assert text[i..][1..] == text[i + 1..];
  }

  lemma UnwrapFrom(text: string, start: nat, end: nat)
    requires start < |text| && FirstBrace(text) == start
    requires start < end <= |text| && Length(START, text[start..]) == Some(end - start)
    ensures Unwrap(text) == text[start..end]
  {
  }

  method FindBrace(text: string) returns (start: nat)
    ensures start == FirstBrace(text) <= |text|
  {
    FirstBraceExact(text);
    start := 0;
    while start < |text| && text[start] != '{'
      invariant start <= |text| && FirstBrace(text) == start + FirstBrace(text[start..])
    {
      assert text[start..][1..] == text[start + 1..];
      start := start + 1;
    }
  }

  /** The scanning loop. */
  method UnwrapJsonContent(text: string) returns (r: string)
    ensures r == Unwrap(text)
  {
    var start := FindBrace(text);
    if start == |text| { return text; }
    var depth, inString, escaped := 0, false, false;
    ghost var whole := Length(START, text[start..]);
    for index := start to |text|
      invariant whole == Shift(index - start, Length(State(depth, inString, escaped), text[index..]))
    {
      var c := text[index];
      ghost var before := State(depth, inString, escaped);
      LengthAt(before, text, index);
      if inString {
        if escaped {
          escaped := false;
        } else if c == '\\' {
          escaped := true;
        } else if c == '"' {
          inString := false;
        }
      } else if c == '"' {
        inString := true;
      } else if c == '{' {
        depth := depth + 1;
      } else if c == '}' {
        depth := depth - 1;
        if depth == 0 {
          UnwrapFrom(text, start, index + 1);
          return text[start..index + 1];
        }
      }
      assert State(depth, inString, escaped) == Advance(before, c) && !Closes(before, c);
    }
    return text;
  }

  // ---- what the scanner passes over ----------------------------------------------------------------------------

  function Inside(depth: int): State { State(depth, false, false) }
  function Quoted(depth: int): State { State(depth, true, false) }

  /** Reading `w` at this depth closes nothing and changes nothing. */
  ghost predicate Passes(s: State, w: string) {
    forall rest: string {:trigger w + rest} :: Length(s, w + rest) == Shift(|w|, Length(s, rest))
  }

  lemma LengthStep(s: State, c: char, rest: string)
    requires !Closes(s, c)
    ensures Length(s, [c] + rest) == Shift(1, Length(Advance(s, c), rest))
  {
    assert ([c] + rest)[1..] == rest;
  }

  lemma PassesConcat(s: State, v: string, w: string)
    requires Passes(s, v) && Passes(s, w)
    ensures Passes(s, v + w)
  {
    forall rest: string ensures Length(s, (v + w) + rest) == Shift(|v + w|, Length(s, rest)) {
      assert (v + w) + rest == v + (w + rest);
    }
  }

  lemma PassesChar(s: State, c: char)
    requires !Closes(s, c) && Advance(s, c) == s
    ensures Passes(s, [c])
  {
    forall rest: string ensures Length(s, [c] + rest) == Shift(1, Length(s, rest)) { LengthStep(s, c, rest); }
  }

  lemma PassesNothing(s: State)
    ensures Passes(s, "")
  {
    forall rest: string ensures Length(s, "" + rest) == Shift(0, Length(s, rest)) { assert "" + rest == rest; }
  }

  lemma {:induction false} PassesPlain(depth: int, w: string)
    requires '"' !in w && '{' !in w && '}' !in w
    ensures Passes(Inside(depth), w)
  {
    if w == "" {
      PassesNothing(Inside(depth));
    } else {
      assert w == [w[0]] + w[1..];
      PassesChar(Inside(depth), w[0]);
      PassesPlain(depth, w[1..]);
      PassesConcat(Inside(depth), [w[0]], w[1..]);
    }
  }

  lemma PassesEscape(depth: int, c: char)
    ensures Passes(Quoted(depth), ['\\', c])
  {
    forall rest: string ensures Length(Quoted(depth), ['\\', c] + rest) == Shift(2, Length(Quoted(depth), rest)) {
      LengthStep(Quoted(depth), '\\', [c] + rest);
      LengthStep(State(depth, true, true), c, rest);
      assert ['\\', c] + rest == ['\\'] + ([c] + rest);
    }
  }

  lemma PassesPiece(depth: int, p: Piece)
    ensures Passes(Quoted(depth), PrintPiece(p))
  {
    match p
    case Plain(c) => PassesChar(Quoted(depth), c);
    case Short(e) => PassesEscape(depth, e);
    case Long(a, b, c, d) =>
      var s := Quoted(depth);
      PassesEscape(depth, 'u');
      PassesChar(s, a); PassesChar(s, b); PassesChar(s, c); PassesChar(s, d);
      PassesConcat(s, ['\\', 'u'], [a]);
      PassesConcat(s, ['\\', 'u'] + [a], [b]);
      PassesConcat(s, ['\\', 'u'] + [a] + [b], [c]);
      PassesConcat(s, ['\\', 'u'] + [a] + [b] + [c], [d]);
      assert PrintPiece(p) == ['\\', 'u'] + [a] + [b] + [c] + [d];
  }

  lemma {:induction false} PassesPieces(depth: int, ps: seq<Piece>)
    ensures Passes(Quoted(depth), PrintPieces(ps))
  {
    if ps == [] {
      PassesNothing(Quoted(depth));
    } else {
      PassesPiece(depth, ps[0]);
      PassesPieces(depth, ps[1..]);
      PassesConcat(Quoted(depth), PrintPiece(ps[0]), PrintPieces(ps[1..]));
    }
  }

  lemma PassesOver(s: State, w: string, rest: string)
    requires Passes(s, w)
    ensures Length(s, w + rest) == Shift(|w|, Length(s, rest))
  {
  }

  lemma Associates(a: string, b: string, c: string)
    ensures (a + b) + c == a + (b + c)
  {
  }

  lemma QuoteStep(s: State, s1: State, rest: string)
    requires s1 == Advance(s, '"') && !s.escaped
    ensures Length(s, "\"" + rest) == Shift(1, Length(s1, rest))
  {
    LengthStep(s, '"', rest);
    assert "\"" + rest == ['"'] + rest;
  }

  /** A string passes whatever braces, quotes and backslashes it spells. */
  lemma PassesText(depth: int, ps: seq<Piece>)
    ensures Passes(Inside(depth), PrintText(ps))
  {
    var body := PrintPieces(ps);
    PassesPieces(depth, ps);
    forall rest: string
      ensures Length(Inside(depth), PrintText(ps) + rest) == Shift(|PrintText(ps)|, Length(Inside(depth), rest))
    {
      QuoteStep(Inside(depth), Quoted(depth), body + ("\"" + rest));
      PassesOver(Quoted(depth), body, "\"" + rest);
      QuoteStep(Quoted(depth), Inside(depth), rest);
      Associates("\"", body, "\"");
      Associates("\"", body + "\"", rest);
      Associates(body, "\"", rest);
    }
  }

  lemma PassesSpaces(depth: int, w: seq<Space>)
    ensures Passes(Inside(depth), w)
  {
    PassesPlain(depth, w);
  }

  lemma NumberIsPlain(n: Json)
    requires n.Number?
    ensures forall c | c in PrintNumber(n) :: c in "-+.eE" || '0' <= c <= '9'
  {
    var fraction := if n.fraction == [] then "" else "." + n.fraction;
    forall c | c in fraction ensures c == '.' || '0' <= c <= '9' {}
  }

  lemma PassesNumber(depth: int, n: Json)
    requires n.Number?
    ensures Passes(Inside(depth), PrintNumber(n))
  {
    NumberIsPlain(n);
    assert '"' !in PrintNumber(n) && '{' !in PrintNumber(n) && '}' !in PrintNumber(n);
    PassesPlain(depth, PrintNumber(n));
  }

  lemma PassesBrackets(depth: int, pad: seq<Space>, body: string)
    requires Passes(Inside(depth), body)
    ensures Passes(Inside(depth), "[" + pad + body + "]")
  {
    var s := Inside(depth);
    PassesPlain(depth, "[");
    PassesSpaces(depth, pad);
    PassesPlain(depth, "]");
    PassesConcat(s, "[", pad);
    PassesConcat(s, "[" + pad, body);
    PassesConcat(s, "[" + pad + body, "]");
  }

  lemma OpenStep(depth: int, text: string)
    requires depth >= 0
    ensures Length(Inside(depth), "{" + text) == Shift(1, Length(Inside(depth + 1), text))
  {
    LengthStep(Inside(depth), '{', text);
    assert "{" + text == ['{'] + text;
  }

  lemma Regroup(body: string, rest: string)
    ensures "{" + body + "}" + rest == "{" + (body + ("}" + rest))
  {
    Associates("{", body, "}");
    Associates("{", body + "}", rest);
    Associates(body, "}", rest);
  }

  lemma OpenBrace(depth: int, body: string, rest: string)
    requires depth >= 0 && Passes(Inside(depth + 1), body)
    ensures Length(Inside(depth), "{" + body + "}" + rest)
            == Shift(1 + |body|, Length(Inside(depth + 1), "}" + rest))
  {
    Regroup(body, rest);
    OpenStep(depth, body + ("}" + rest));
    PassesOver(Inside(depth + 1), body, "}" + rest);
  }

  lemma PassesValue(depth: int, v: Json)
    requires depth >= 1
    ensures Passes(Inside(depth), Print(v))
    decreases v
  {
    match v
    case Null => PassesPlain(depth, "null");
    case True => PassesPlain(depth, "true");
    case False => PassesPlain(depth, "false");
    case Number(_, _, _, _) => PassesNumber(depth, v);
    case Text(pieces) => PassesText(depth, pieces);
    case Array(pad, items) =>
      PassesItems(depth, items);
      PassesBrackets(depth, pad, PrintItems(items));
    case Object(_, _) => PassesObject(depth, v);
  }

  lemma PassesItems(depth: int, xs: Items)
    requires depth >= 1
    ensures Passes(Inside(depth), PrintItems(xs))
    decreases xs
  {
    var s := Inside(depth);
    PassesNothing(s);
    match xs
    case NoItems =>
    case Items(before, value, after, others) =>
      PassesSpaces(depth, before);
      PassesValue(depth, value);
      PassesSpaces(depth, after);
      PassesPlain(depth, ",");
      PassesItems(depth, others);
      PassesConcat(s, before, Print(value));
      PassesConcat(s, before + Print(value), after);
      PassesConcat(s, ",", PrintItems(others));
      PassesConcat(s, before + Print(value) + after, if others.NoItems? then "" else "," + PrintItems(others));
  }

  lemma PassesMembers(depth: int, ms: Members)
    requires depth >= 1
    ensures Passes(Inside(depth), PrintMembers(ms))
    decreases ms
  {
    var s := Inside(depth);
    PassesNothing(s);
    match ms
    case NoMembers =>
    case Members(lead, key, gap, pre, item, post, more) =>
      PassesSpaces(depth, lead);
      PassesText(depth, key);
      PassesSpaces(depth, gap);
      PassesPlain(depth, ":");
      PassesSpaces(depth, pre);
      PassesValue(depth, item);
      PassesSpaces(depth, post);
      PassesPlain(depth, ",");
      PassesMembers(depth, more);
      PassesConcat(s, lead, PrintText(key));
      PassesConcat(s, lead + PrintText(key), gap);
      PassesConcat(s, lead + PrintText(key) + gap, ":");
      PassesConcat(s, lead + PrintText(key) + gap + ":", pre);
      PassesConcat(s, lead + PrintText(key) + gap + ":" + pre, Print(item));
      PassesConcat(s, lead + PrintText(key) + gap + ":" + pre + Print(item), post);
      PassesConcat(s, ",", PrintMembers(more));
      PassesConcat(s, lead + PrintText(key) + gap + ":" + pre + Print(item) + post,
                   if more.NoMembers? then "" else "," + PrintMembers(more));
  }

  /** Whatever stands between an object's braces, the scanner reaches the closing one where it opened. */
  lemma ObjectBody(depth: int, v: Json, rest: string)
    requires depth >= 0 && v.Object?
    ensures Length(Inside(depth), Print(v) + rest)
            == Shift(|Print(v)| - 1, Length(Inside(depth + 1), "}" + rest))
    decreases v, 0
  {
    var body := v.inner + PrintMembers(v.members);
    PassesSpaces(depth + 1, v.inner);
    PassesMembers(depth + 1, v.members);
    PassesConcat(Inside(depth + 1), v.inner, PrintMembers(v.members));
    OpenBrace(depth, body, rest);
    assert Print(v) == "{" + body + "}";
  }

  lemma CloseStep(depth: int, rest: string)
    requires depth >= 1
    ensures Length(Inside(depth + 1), "}" + rest) == Shift(1, Length(Inside(depth), rest))
  {
    LengthStep(Inside(depth + 1), '}', rest);
    assert "}" + rest == ['}'] + rest;
  }

  lemma PassesObject(depth: int, v: Json)
    requires depth >= 1 && v.Object?
    ensures Passes(Inside(depth), Print(v))
    decreases v, 1
  {
    var w := Print(v);
    forall rest: string ensures Length(Inside(depth), w + rest) == Shift(|w|, Length(Inside(depth), rest)) {
      ObjectBody(depth, v, rest);
      CloseStep(depth, rest);
    }
  }

  // ---- the scanner inverts the printer -------------------------------------------------------------------------

  lemma ObjectLength(v: Json, rest: string)
    requires v.Object?
    ensures Length(START, Print(v) + rest) == Some(|Print(v)|)
  {
    ObjectBody(0, v, rest);
    assert ("}" + rest)[0] == '}';
  }

  lemma {:induction false} FirstBraceAfter(prefix: string, text: string)
    requires '{' !in prefix && text != "" && text[0] == '{'
    ensures FirstBrace(prefix + text) == |prefix|
  {
    if prefix == "" {
      assert prefix + text == text;
    } else {
      assert (prefix + text)[1..] == prefix[1..] + text;
      FirstBraceAfter(prefix[1..], text);
    }
  }

  /** For every object, however nested, spaced and escaped, exactly its text is cut out. */
  lemma UnwrapInvertsPrint(prefix: string, v: Json, suffix: string)
    requires v.Object? && '{' !in prefix
    ensures Unwrap(prefix + Print(v) + suffix) == Print(v)
  {
    var text := prefix + Print(v) + suffix;
    assert Print(v)[0] == '{';
    FirstBraceAfter(prefix, Print(v) + suffix);
    assert text == prefix + (Print(v) + suffix) && text[|prefix|..] == Print(v) + suffix;
    ObjectLength(v, suffix);
    assert text[|prefix|..|prefix| + |Print(v)|] == Print(v);
  }

  /** The scanner never looks past the brace it stops at. */
  lemma {:induction false} LengthOfPrefix(s: State, text: string, n: nat)
    requires n <= |text|
    ensures Length(s, text).Some? && Length(s, text).value <= n ==> Length(s, text[..n]) == Length(s, text)
    ensures Length(s, text).None? || Length(s, text).value > n ==> Length(s, text[..n]).None?
    decreases |text|
  {
    if n == 0 {
      LengthWithin(s, text);
    } else {
      assert text[..n][1..] == text[1..][..n - 1];
      LengthOfPrefix(Advance(s, text[0]), text[1..], n - 1);
    }
  }

  /** An object cut short is not mistaken for a shorter one: the text comes back as it was. */
  lemma CutShortUnchanged(prefix: string, v: Json, n: nat)
    requires v.Object? && '{' !in prefix && 1 <= n < |Print(v)|
    ensures Unwrap(prefix + Print(v)[..n]) == prefix + Print(v)[..n]
  {
    var cut := Print(v)[..n];
    assert Print(v)[0] == '{' && Print(v) + "" == Print(v);
    ObjectLength(v, "");
    LengthOfPrefix(START, Print(v), n);
    FirstBraceAfter(prefix, cut);
    assert (prefix + cut)[|prefix|..] == cut;
  }

  /** Unwrapping what was unwrapped changes nothing, for any text at all. */
  lemma UnwrapIdempotent(text: string)
    ensures Unwrap(Unwrap(text)) == Unwrap(text)
  {
    var start := FirstBrace(text);
    FirstBraceExact(text);
    if start < |text| && Length(START, text[start..]).Some? {
      var n := Length(START, text[start..]).value;
      LengthWithin(START, text[start..]);
      LengthOfPrefix(START, text[start..], n);
      assert text[start..][..n] == text[start..start + n];
    }
  }

  lemma {:induction false} FirstBraceInPrefix(prefix: string, text: string)
    requires '{' in prefix
    ensures FirstBrace(prefix + text) == FirstBrace(prefix) < |prefix|
  {
    if prefix[0] != '{' {
      assert (prefix + text)[1..] == prefix[1..] + text;
      FirstBraceInPrefix(prefix[1..], text);
    }
  }

  /** The cut starts at the object exactly when no brace stands before it; otherwise it starts at that brace. */
  lemma CutStartsExactly(prefix: string, v: Json, suffix: string)
    requires v.Object?
    ensures FirstBrace(prefix + Print(v) + suffix) == |prefix| <==> '{' !in prefix
    ensures '{' in prefix ==> FirstBrace(prefix + Print(v) + suffix) == FirstBrace(prefix)
  {
    assert prefix + Print(v) + suffix == prefix + (Print(v) + suffix) && Print(v)[0] == '{';
    if '{' in prefix {
      FirstBraceInPrefix(prefix, Print(v) + suffix);
    } else {
      FirstBraceAfter(prefix, Print(v) + suffix);
    }
  }

  predicate Loose(w: string) { '"' !in w && '{' !in w && '}' !in w }

  lemma UnclosedUnchanged(prefix: string, body: string)
    requires '{' !in prefix && Passes(Inside(1), body)
    ensures Unwrap(prefix + ("{" + body)) == prefix + ("{" + body)
  {
    FirstBraceAfter(prefix, "{" + body);
    assert (prefix + ("{" + body))[|prefix|..] == "{" + body;
    OpenStep(0, body);
    PassesOver(Inside(1), body, "");
    assert body + "" == body;
  }

  /** A brace that is never closed keeps the object behind it from being found, wherever in the text the two stand. */
  lemma PrefixBraceMisleads(prefix: string, gap: string, v: Json, suffix: string)
    requires v.Object? && '{' !in prefix && Loose(gap) && Loose(suffix)
    ensures var text := prefix + ("{" + (gap + Print(v) + suffix)); Unwrap(text) == text
  {
    PassesPlain(1, gap);
    PassesObject(1, v);
    PassesPlain(1, suffix);
    PassesConcat(Inside(1), gap, Print(v));
    PassesConcat(Inside(1), gap + Print(v), suffix);
    UnclosedUnchanged(prefix, gap + Print(v) + suffix);
  }

  /** Of two objects the first is returned, whatever stands around them. */
  lemma FirstObjectWins(prefix: string, w: Json, gap: string, v: Json, suffix: string)
    requires w.Object? && '{' !in prefix
    ensures Unwrap(prefix + Print(w) + gap + Print(v) + suffix) == Print(w)
  {
    UnwrapInvertsPrint(prefix, w, gap + Print(v) + suffix);
    assert prefix + Print(w) + (gap + Print(v) + suffix) == prefix + Print(w) + gap + Print(v) + suffix;
  }
}

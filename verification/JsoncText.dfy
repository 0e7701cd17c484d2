/** The two stages of common/browser_automation_steps.py on texts that are written out character
    by character. Nothing here but the statements refers to how the stages are defined. */
module JsoncText {
  import opened Common
  import opened Jsonc
  import Texts

  // ---------------------------------------------------------------------------
  // String literals
  // ---------------------------------------------------------------------------

  /** A character of a string literal: itself, or a backslash and any character. */
  datatype Unit = Plain(c: char) | Escape(c: char)

  predicate AreUnits(units: seq<Unit>) {
    forall i :: 0 <= i < |units| && units[i].Plain? ==> units[i].c != '"' && units[i].c != '\\'
  }

  function Body(units: seq<Unit>): string {
    if units == [] then ""
    else (if units[0].Plain? then [units[0].c] else ['\\', units[0].c]) + Body(units[1..])
  }

  function Quoted(units: seq<Unit>): string { "\"" + Body(units) + "\"" }

  lemma CopiedInside(c: char, rest: string, mode: Mode)
    requires mode != Outside
    ensures Uncomment([c] + rest, mode) == Prepend([c], Uncomment(rest, Next(mode, c)))
    ensures Decomma([c] + rest, mode) == [c] + Decomma(rest, Next(mode, c))
  {
    assert ([c] + rest)[1..] == rest;
  }

  lemma EscapeCopied(c: char, rest: string)
    ensures Uncomment(['\\', c] + rest, Inside) == Prepend(['\\', c], Uncomment(rest, Inside))
    ensures Decomma(['\\', c] + rest, Inside) == ['\\', c] + Decomma(rest, Inside)
  {
    CopiedInside('\\', [c] + rest, Inside);
    CopiedInside(c, rest, Escaped);
    hide Uncomment, Decomma;
    assert ['\\', c] + rest == ['\\'] + ([c] + rest) && ['\\'] + [c] == ['\\', c];
    PrependTwice(['\\'], [c], Uncomment(rest, Inside));
    assert ['\\'] + ([c] + Decomma(rest, Inside)) == ['\\', c] + Decomma(rest, Inside);
  }

  /** Neither stage looks into a string literal: comment marks, commas and quotes behind a
      backslash stay, and the literal ends where it ends. */
  lemma {:induction false} LiteralEnds(units: seq<Unit>, rest: string)
    requires AreUnits(units)
    ensures Uncomment(Body(units) + "\"" + rest, Inside) == Prepend(Body(units) + "\"", Uncomment(rest, Outside))
    ensures Decomma(Body(units) + "\"" + rest, Inside) == Body(units) + "\"" + Decomma(rest, Outside)
  {
    if units == [] {
      CopiedInside('"', rest, Inside);
      assert Body(units) + "\"" + rest == ['"'] + rest && Body(units) + "\"" == ['"'];
    } else {
      var more := Body(units[1..]) + "\"";
      var first := if units[0].Plain? then [units[0].c] else ['\\', units[0].c];
      LiteralEnds(units[1..], rest);
      hide Body;
      if units[0].Plain? {
        CopiedInside(units[0].c, more + rest, Inside);
      } else {
        EscapeCopied(units[0].c, more + rest);
      }
      hide Uncomment, Decomma;
      CopiedInTurn(first, first, more, more, rest, Inside, Inside, Outside);
      BodyStep(units);
    }
  }

  lemma BodyStep(units: seq<Unit>)
    requires units != []
    ensures var first := if units[0].Plain? then [units[0].c] else ['\\', units[0].c];
            Body(units) + "\"" == first + (Body(units[1..]) + "\"")
  {
    assert Body(units) == (if units[0].Plain? then [units[0].c] else ['\\', units[0].c]) + Body(units[1..]);
    hide Body;
  }

  /** The stages turn `w` into itself and into `out`, and go on with what is behind it. */
  ghost predicate Copies(w: string, out: string, rest: string, before: Mode, after: Mode) {
    && Uncomment(w + rest, before) == Prepend(w, Uncomment(rest, after))
    && Decomma(w + rest, before) == out + Decomma(rest, after)
  }

  lemma CopiedInTurn(v: string, vout: string, w: string, wout: string, rest: string, before: Mode, between: Mode,
                     after: Mode)
    requires Copies(v, vout, w + rest, before, between) && Copies(w, wout, rest, between, after)
    ensures Copies(v + w, vout + wout, rest, before, after)
  {
    hide Uncomment, Decomma;
    assert v + w + rest == v + (w + rest);
    PrependTwice(v, w, Uncomment(rest, after));
    assert vout + (wout + Decomma(rest, after)) == vout + wout + Decomma(rest, after);
  }

  lemma LiteralIsCopied(units: seq<Unit>, rest: string)
    requires AreUnits(units)
    ensures Uncomment(Quoted(units) + rest, Outside) == Prepend(Quoted(units), Uncomment(rest, Outside))
    ensures Decomma(Quoted(units) + rest, Outside) == Quoted(units) + Decomma(rest, Outside)
  {
    var inside := Body(units) + "\"";
    LiteralEnds(units, rest);
    hide Body;
    QuoteOpens(inside + rest);
    hide Uncomment, Decomma;
    CopiedInTurn("\"", "\"", inside, inside, rest, Outside, Inside, Outside);
    assert Quoted(units) == "\"" + inside;
  }

  lemma QuoteOpens(rest: string)
    ensures Uncomment("\"" + rest, Outside) == Prepend("\"", Uncomment(rest, Inside))
    ensures Decomma("\"" + rest, Outside) == "\"" + Decomma(rest, Inside)
  {
    assert ("\"" + rest)[1..] == rest && ("\"" + rest)[0] == '"';
  }

  /** So the body is one that the lexer takes for a literal. */
  lemma {:induction false} BodyIsBody(units: seq<Unit>)
    requires AreUnits(units)
    ensures IsBody(Body(units), Inside)
  {
    if units != [] {
      BodyIsBody(units[1..]);
      var body, rest := Body(units), Body(units[1..]);
      if units[0].Plain? {
        assert body[1..] == rest;
      } else {
        assert body[1..][1..] == rest;
      }
    }
  }

  /** And every body is made of such units: the statements about literals are about all of them. */
  lemma {:induction false} BodyHasUnits(body: string) returns (units: seq<Unit>)
    requires IsBody(body, Inside)
    ensures AreUnits(units) && Body(units) == body
  {
    if body == [] {
      units := [];
    } else if body[0] == '\\' {
      assert Next(Inside, body[0]) == Escaped && IsBody(body[1..], Escaped);
      assert body[1..] != [] && IsBody(body[1..][1..], Inside) && body[1..][1..] == body[2..];
      var rest := BodyHasUnits(body[2..]);
      units := [Escape(body[1])] + rest;
      assert units[1..] == rest && body == ['\\', body[1]] + body[2..];
    } else {
      var rest := BodyHasUnits(body[1..]);
      units := [Plain(body[0])] + rest;
      assert units[1..] == rest && body == [body[0]] + body[1..];
    }
  }

  // ---------------------------------------------------------------------------
  // Comments
  // ---------------------------------------------------------------------------

  predicate IsBreak(c: char) { c == '\n' || c == '\r' }

  lemma {:induction false} LineEnds(text: string, rest: string)
    requires forall c :: c in text ==> !IsBreak(c)
    requires rest != [] ==> IsBreak(rest[0])
    ensures AfterLine(text + rest) == rest
  {
    if text == [] {
      assert text + rest == rest;
    } else {
      assert (text + rest)[1..] == text[1..] + rest && text[0] in text;
      LineEnds(text[1..], rest);
    }
  }

  /** Outside strings a line comment goes, up to its line feed or carriage return, which stays. */
  lemma LineCommentGoes(text: string, rest: string)
    requires forall c :: c in text ==> !IsBreak(c)
    requires rest != [] ==> IsBreak(rest[0])
    ensures Uncomment("//" + text + rest, Outside) == Uncomment(rest, Outside)
  {
    var s := "//" + text + rest;
    LineEnds(text, rest);
    assert s[2..] == text + rest && s[0] == '/' && s[1] == '/';
    hide AfterLine;
    assert StartsComment(s, '/');
  }

  /** The line feeds and carriage returns of a text. */
  function Breaks(text: string): string {
    if text == [] then ""
    else if text[0] == '\n' || text[0] == '\r' then [text[0]] + Breaks(text[1..]) else Breaks(text[1..])
  }

  predicate HasNoEnd(text: string) {
    forall i :: 0 <= i < |text| - 1 ==> !(text[i] == '*' && text[i + 1] == '/')
  }

  lemma {:induction false} BlockIsFound(text: string, rest: string)
    requires HasNoEnd(text)
    ensures BlockBody(text + "*/" + rest) == Some(|text|) && BlockBody(text).None?
    ensures Newlines(text) == Breaks(text)
  {
    var s := text + "*/" + rest;
    if text != [] {
      assert s[1..] == text[1..] + "*/" + rest;
      assert forall i :: 0 <= i < |text[1..]| ==> text[1..][i] == text[i + 1];
      BlockIsFound(text[1..], rest);
      assert s[0] == text[0] && s[1] == if |text| > 1 then text[1] else '*';
    }
  }

  /** Outside strings a block comment becomes a space and its line breaks, so that what stands
      on its two sides stays apart; one that does not end is an error. */
  lemma BlockCommentGoes(text: string, rest: string)
    requires HasNoEnd(text)
    ensures Uncomment("/*" + text + "*/" + rest, Outside) == Prepend(" " + Breaks(text), Uncomment(rest, Outside))
    ensures Uncomment("/*" + text, Outside) == Failure(UnterminatedBlockComment)
  {
    var s, t := "/*" + text + "*/" + rest, "/*" + text;
    BlockIsFound(text, rest);
    assert s[0] == '/' && s[1] == '*' && t[0] == '/' && t[1] == '*';
    assert s[2..] == text + "*/" + rest && t[2..] == text;
    assert s[2..2 + |text|] == text && s[2 + |text| + 2..] == rest;
    hide BlockBody, Newlines, Breaks;
    assert StartsComment(s, '*') && !StartsComment(s, '/') && StartsComment(t, '*') && !StartsComment(t, '/');
  }

  /** Every other character stays. */
  lemma OtherCharacterStays(c: char, rest: string)
    requires c != '"' && !(c == '/' && rest != [] && (rest[0] == '/' || rest[0] == '*'))
    ensures Uncomment([c] + rest, Outside) == Prepend([c], Uncomment(rest, Outside))
  {
    assert ([c] + rest)[1..] == rest;
  }

  // ---------------------------------------------------------------------------
  // Commas
  // ---------------------------------------------------------------------------

  /** Nothing but white space, and then a closing brace or bracket. */
  ghost predicate ClosesNext(rest: string) {
    exists k :: 0 <= k < |rest| && (rest[k] == '}' || rest[k] == ']') && IsAllSpace(rest, k)
  }

  predicate IsAllSpace(s: string, k: nat)
    requires k <= |s|
  {
    forall i :: 0 <= i < k ==> Texts.IsSpace(s[i])
  }

  lemma JsonBlanksAreSpace()
    ensures Texts.IsSpace(' ') && Texts.IsSpace('\t') && Texts.IsSpace('\n') && Texts.IsSpace('\r')
    ensures forall c :: Texts.IsSpace(c) ==>
              c != '}' && c != ']' && c != '{' && c != '[' && c != ',' && c != ':' && c != '"' && c != '/'
    ensures forall c :: 'a' <= c <= 'z' || 'A' <= c <= 'Z' || '0' <= c <= '9' || c == '-' || c == '+' || c == '.' ==>
              !Texts.IsSpace(c)
  {}

  lemma {:induction false} CloserIsNext(rest: string)
    ensures BeforeCloser(rest) <==> ClosesNext(rest)
  {
    if rest != [] && Texts.IsSpace(rest[0]) {
      CloserIsNext(rest[1..]);
      if ClosesNext(rest[1..]) {
        var k :| 0 <= k < |rest[1..]| && (rest[1..][k] == '}' || rest[1..][k] == ']') && IsAllSpace(rest[1..], k);
        assert rest[k + 1] == rest[1..][k] && IsAllSpace(rest, k + 1);
      }
      if ClosesNext(rest) {
        var k :| 0 <= k < |rest| && (rest[k] == '}' || rest[k] == ']') && IsAllSpace(rest, k);
        assert k > 0 && rest[1..][k - 1] == rest[k] && IsAllSpace(rest[1..], k - 1);
      }
    } else if rest != [] && (rest[0] == '}' || rest[0] == ']') {
      assert IsAllSpace(rest, 0);
    }
  }

  /** Outside strings a comma goes if and only if nothing but white space stands between it and a
      closing brace or bracket; every other character stays. */
  lemma CommaGoesExactly(c: char, rest: string)
    requires c != '"'
    ensures Decomma([c] + rest, Outside)
         == if c == ',' && ClosesNext(rest) then Decomma(rest, Outside) else [c] + Decomma(rest, Outside)
  {
    assert ([c] + rest)[1..] == rest;
    CloserIsNext(rest);
  }

  // ---------------------------------------------------------------------------
  // Values
  // ---------------------------------------------------------------------------

  datatype Value = Number(chars: string) | Text(units: seq<Unit>) | List(elements: Elements) | Object(members: Members)
  datatype Elements = NoElement | Element(value: Value, rest: Elements)
  datatype Members = NoMember | Member(name: seq<Unit>, value: Value, rest: Members)

  /** A character of a number or of true, false and null. */
  predicate IsLiteralChar(c: char) {
    'a' <= c <= 'z' || 'A' <= c <= 'Z' || '0' <= c <= '9' || c == '-' || c == '+' || c == '.'
  }

  predicate IsValue(v: Value) {
    match v
    case Number(chars) => chars != [] && forall i :: 0 <= i < |chars| ==> IsLiteralChar(chars[i])
    case Text(units) => AreUnits(units)
    case List(elements) => AreElements(elements)
    case Object(members) => AreMembers(members)
  }

  predicate AreElements(elements: Elements) {
    elements.Element? ==> IsValue(elements.value) && AreElements(elements.rest)
  }

  predicate AreMembers(members: Members) {
    members.Member? ==> AreUnits(members.name) && IsValue(members.value) && AreMembers(members.rest)
  }

  /** The value as JSON, with a blank text around everything, and with `last` behind the last
      element of each list and the last member of each object. */
  function Write(v: Value, b: string, last: string): string {
    match v
    case Number(chars) => chars
    case Text(units) => Quoted(units)
    case List(elements) => "[" + (b + (WriteElements(elements, b, last) + "]"))
    case Object(members) => "{" + (b + (WriteMembers(members, b, last) + "}"))
  }

  function WriteElements(elements: Elements, b: string, last: string): string {
    match elements
    case NoElement => ""
    case Element(v, rest) =>
      Write(v, b, last) + (b + ((if rest.NoElement? then last else ",") + (b + WriteElements(rest, b, last))))
  }

  function WriteMembers(members: Members, b: string, last: string): string {
    match members
    case NoMember => ""
    case Member(name, v, rest) =>
      Quoted(name) + (b + (":" + (b + (Write(v, b, last)
        + (b + ((if rest.NoMember? then last else ",") + (b + WriteMembers(rest, b, last))))))))
  }

  predicate IsJsonBlank(b: string) {
    forall i :: 0 <= i < |b| ==> b[i] == ' ' || b[i] == '\t' || b[i] == '\n' || b[i] == '\r'
  }

  /** The same, whatever is behind. */
  ghost predicate Turns(w: string, out: string) {
    forall rest: string :: Copies(w, out, rest, Outside, Outside)
  }

  lemma TurnInTurn(v: string, vout: string, w: string, wout: string)
    requires Turns(v, vout) && Turns(w, wout)
    ensures Turns(v + w, vout + wout)
  {
    hide Copies;
    forall rest: string ensures Copies(v + w, vout + wout, rest, Outside, Outside) {
      assert Copies(w, wout, rest, Outside, Outside) && Copies(v, vout, w + rest, Outside, Outside);
      CopiedInTurn(v, vout, w, wout, rest, Outside, Outside, Outside);
    }
  }

  lemma OneTurns(c: char, rest: string)
    requires c != '"' && c != '/' && c != ','
    ensures Copies([c], [c], rest, Outside, Outside)
  {
    OtherCharacterStays(c, rest);
    CommaGoesExactly(c, rest);
  }

  lemma {:induction false} PlainTurns(w: string)
    requires forall i :: 0 <= i < |w| ==> w[i] != '"' && w[i] != '/' && w[i] != ','
    ensures Turns(w, w)
  {
    if w == [] {
      forall rest: string ensures Copies(w, w, rest, Outside, Outside) {
        NothingCopied(rest);
      }
    } else {
      forall rest: string ensures Copies([w[0]], [w[0]], rest, Outside, Outside) {
        OneTurns(w[0], rest);
      }
      hide Copies;
      PlainTurns(w[1..]);
      TurnInTurn([w[0]], [w[0]], w[1..], w[1..]);
      assert [w[0]] + w[1..] == w;
    }
  }

  lemma NothingCopied(rest: string)
    ensures Copies("", "", rest, Outside, Outside)
  {
    hide Uncomment, Decomma;
    assert "" + rest == rest && "" + Decomma(rest, Outside) == Decomma(rest, Outside);
    if Uncomment(rest, Outside).Success? {
      assert "" + Uncomment(rest, Outside).value == Uncomment(rest, Outside).value;
    }
  }

  lemma QuotedTurns(units: seq<Unit>)
    requires AreUnits(units)
    ensures Turns(Quoted(units), Quoted(units))
  {
    forall rest: string ensures Copies(Quoted(units), Quoted(units), rest, Outside, Outside) {
      LiteralIsCopied(units, rest);
      hide Quoted;
    }
  }

  /** A text begins with something that is neither white space nor closes anything. */
  predicate Begins(w: string) {
    w != [] && !Texts.IsSpace(w[0]) && w[0] != '}' && w[0] != ']'
  }

  lemma CommaAt(w: string)
    ensures Uncomment("," + w, Outside) == Prepend(",", Uncomment(w, Outside))
    ensures Decomma("," + w, Outside) == if ClosesNext(w) then Decomma(w, Outside) else "," + Decomma(w, Outside)
  {
    OtherCharacterStays(',', w);
    CommaGoesExactly(',', w);
  }

  /** A comma before another value stays. */
  lemma SeparatorTurns(b: string, w: string, out: string)
    requires IsJsonBlank(b) && Begins(w) && Turns(b + w, b + out)
    ensures Turns("," + (b + w), "," + (b + out))
  {
    forall rest: string ensures Copies("," + (b + w), "," + (b + out), rest, Outside, Outside) {
      assert Copies(b + w, b + out, rest, Outside, Outside);
      BlankThenValue(b, w + rest);
      assert b + w + rest == b + (w + rest);
      CommaAt(b + w + rest);
      assert Copies(",", ",", b + w + rest, Outside, Outside);
      hide Copies;
      CopiedInTurn(",", ",", b + w, b + out, rest, Outside, Outside, Outside);
    }
  }

  lemma BlankThenValue(b: string, w: string)
    requires IsJsonBlank(b) && Begins(w)
    ensures !ClosesNext(b + w)
  {
    var s := b + w;
    assert s[|b|] == w[0];
    forall k | 0 <= k < |s| && (s[k] == '}' || s[k] == ']') ensures !IsAllSpace(s, k) {
      assert k > |b|;
      assert !Texts.IsSpace(s[|b|]);
    }
  }

  /** A comma before a closing brace or bracket goes. */
  lemma LastCommaTurns(b: string, closer: char)
    requires IsJsonBlank(b) && (closer == '}' || closer == ']')
    ensures Turns("," + (b + [closer]), b + [closer])
  {
    var w := b + [closer];
    PlainTurns(w);
    forall rest: string ensures Copies("," + w, w, rest, Outside, Outside) {
      assert Copies(w, w, rest, Outside, Outside);
      BlankThenCloser(b, closer, rest);
      CommaAt(w + rest);
      NothingBefore(w, rest);
      assert Copies(",", "", w + rest, Outside, Outside);
      hide Copies;
      CopiedInTurn(",", "", w, w, rest, Outside, Outside, Outside);
      assert "" + w == w;
    }
  }

  lemma NothingBefore(w: string, rest: string)
    ensures "" + Decomma(w + rest, Outside) == Decomma(w + rest, Outside)
  {}

  lemma BlankThenCloser(b: string, closer: char, rest: string)
    requires IsJsonBlank(b) && (closer == '}' || closer == ']')
    ensures ClosesNext(b + [closer] + rest)
  {
    var s := b + [closer] + rest;
    assert s[|b|] == closer && IsAllSpace(s, |b|);
  }

  lemma ValueBegins(v: Value, b: string, last: string)
    requires IsValue(v)
    ensures Begins(Write(v, b, last))
  {
    JsonBlanksAreSpace();
  }

  /** The comma of an element, or of a member, and what follows up to the end of the list. */
  lemma TailTurns(b: string, more: string, moreOut: string, closer: char)
    requires IsJsonBlank(b) && (closer == '}' || closer == ']')
    requires (more == "" && moreOut == "") || (Begins(more + [closer]) && Turns(more + [closer], moreOut + [closer]))
    ensures var comma := if more == "" then "" else ",";
            Turns(b + ("," + (b + (more + [closer]))), b + (comma + (b + (moreOut + [closer]))))
  {
    PlainTurns(b);
    if more == "" {
      LastCommaTurns(b, closer);
      assert more + [closer] == [closer] == moreOut + [closer];
      assert "" + (b + [closer]) == b + [closer];
      TurnInTurn(b, b, "," + (b + [closer]), b + [closer]);
    } else {
      TurnInTurn(b, b, more + [closer], moreOut + [closer]);
      SeparatorTurns(b, more + [closer], moreOut + [closer]);
      hide Turns;
      TurnInTurn(b, b, "," + (b + (more + [closer])), "," + (b + (moreOut + [closer])));
    }
  }

  lemma Nested(a: string, b: string, c: string, d: string, e: string)
    ensures (a + (b + (c + (b + d)))) + e == a + (b + (c + (b + (d + e))))
  {
    assert a + (b + (c + (b + d))) + e == a + (b + (c + (b + d)) + e);
    assert b + (c + (b + d)) + e == b + (c + (b + d) + e);
    assert c + (b + d) + e == c + (b + d + e);
    assert b + d + e == b + (d + e);
  }

  lemma {:induction false} ElementsTurn(elements: Elements, b: string)
    requires AreElements(elements) && elements.Element? && IsJsonBlank(b)
    ensures Turns(WriteElements(elements, b, ",") + "]", WriteElements(elements, b, "") + "]")
    ensures Begins(WriteElements(elements, b, ",") + "]")
  {
    var v, rest := elements.value, elements.rest;
    var first, out := Write(v, b, ","), Write(v, b, "");
    var more, moreOut := WriteElements(rest, b, ","), WriteElements(rest, b, "");
    var comma := if rest.NoElement? then "" else ",";
    assert WriteElements(elements, b, ",") == first + (b + ("," + (b + more)));
    assert WriteElements(elements, b, "") == out + (b + (comma + (b + moreOut)));
    assert more == "" <==> rest.NoElement? by {
      if rest.Element? {
        ValueBegins(rest.value, b, ",");
      }
    }
    ValueTurns(v, b);
    ValueBegins(v, b, ",");
    if rest.Element? {
      ElementsTurn(rest, b);
    }
    hide Turns, Write, WriteElements;
    assert [']'] == "]";
    TailTurns(b, more, moreOut, ']');
    Nested(first, b, ",", more, "]");
    Nested(out, b, comma, moreOut, "]");
    TurnInTurn(first, out, b + ("," + (b + (more + "]"))), b + (comma + (b + (moreOut + "]"))));
  }

  lemma {:induction false} MembersTurn(members: Members, b: string)
    requires AreMembers(members) && members.Member? && IsJsonBlank(b)
    ensures Turns(WriteMembers(members, b, ",") + "}", WriteMembers(members, b, "") + "}")
    ensures Begins(WriteMembers(members, b, ",") + "}")
  {
    var v, rest := members.value, members.rest;
    var name, first, out := Quoted(members.name), Write(v, b, ","), Write(v, b, "");
    var more, moreOut := WriteMembers(rest, b, ","), WriteMembers(rest, b, "");
    var comma := if rest.NoMember? then "" else ",";
    var tail, tailOut := b + ("," + (b + more)), b + (comma + (b + moreOut));
    assert WriteMembers(members, b, ",") == name + (b + (":" + (b + (first + tail))));
    assert WriteMembers(members, b, "") == name + (b + (":" + (b + (out + tailOut))));
    assert more == "" <==> rest.NoMember?;
    ValueTurns(v, b);
    QuotedTurns(members.name);
    if rest.Member? {
      MembersTurn(rest, b);
    }
    assert name[0] == '"';
    JsonBlanksAreSpace();
    hide Turns, Write, WriteMembers, Quoted;
    assert ['}'] == "}";
    TailTurns(b, more, moreOut, '}');
    Nested(first, b, ",", more, "}");
    Nested(out, b, comma, moreOut, "}");
    TurnInTurn(first, out, b + ("," + (b + (more + "}"))), b + (comma + (b + (moreOut + "}"))));
    MemberTurns(name, b, first + tail + "}", out + tailOut + "}");
    Nested(name, b, ":", first + tail, "}");
    Nested(name, b, ":", out + tailOut, "}");
  }

  lemma MemberTurns(name: string, b: string, w: string, out: string)
    requires Turns(name, name) && IsJsonBlank(b) && Turns(w, out)
    ensures Turns(name + (b + (":" + (b + w))), name + (b + (":" + (b + out))))
  {
    PlainTurns(b);
    PlainTurns(":");
    hide Turns;
    TurnInTurn(b, b, w, out);
    TurnInTurn(":", ":", b + w, b + out);
    TurnInTurn(b, b, ":" + (b + w), ":" + (b + out));
    TurnInTurn(name, name, b + (":" + (b + w)), b + (":" + (b + out)));
  }

  /** Bracket, blanks, and what is inside up to the closing bracket. */
  lemma BracketTurns(open: string, b: string, w: string, out: string)
    requires (open == "[" || open == "{") && IsJsonBlank(b) && Turns(w, out)
    ensures Turns(open + (b + w), open + (b + out))
  {
    PlainTurns(b);
    PlainTurns(open);
    hide Turns;
    TurnInTurn(b, b, w, out);
    TurnInTurn(open, open, b + w, b + out);
  }

  lemma {:induction false} ValueTurns(v: Value, b: string)
    requires IsValue(v) && IsJsonBlank(b)
    ensures Turns(Write(v, b, ","), Write(v, b, ""))
  {
    match v
    case Number(chars) => PlainTurns(chars);
    case Text(units) => QuotedTurns(units);
    case List(elements) =>
      if elements.Element? {
        ElementsTurn(elements, b);
      } else {
        PlainTurns("]");
        assert "" + "]" == "]";
      }
      BracketTurns("[", b, WriteElements(elements, b, ",") + "]", WriteElements(elements, b, "") + "]");
    case Object(members) =>
      if members.Member? {
        MembersTurn(members, b);
      } else {
        PlainTurns("}");
        assert "" + "}" == "}";
      }
      BracketTurns("{", b, WriteMembers(members, b, ",") + "}", WriteMembers(members, b, "") + "}");
  }

  /** JSON with a comma behind the last element of every list and the last member of every
      object is normalised to the same text without these commas; JSON stays as it is. */
  lemma TrailingCommasGo(v: Value, b: string)
    requires IsValue(v) && IsJsonBlank(b)
    ensures Normalized(Write(v, b, ",")) == Success(Write(v, b, ""))
  {
    var w, out := Write(v, b, ","), Write(v, b, "");
    ValueTurns(v, b);
    assert Copies(w, out, "", Outside, Outside);
    assert w + "" == w && out + "" == out;
  }

  // ---------------------------------------------------------------------------
  // Tokens of values
  // ---------------------------------------------------------------------------

  function JsonOf(v: Value): Json {
    match v
    case Number(chars) => Json.Literal(chars)
    case Text(units) => Json.Str(Body(units))
    case List(elements) => Json.List(JsonElements(elements))
    case Object(members) => Json.Object(JsonMembers(members))
  }

  function JsonElements(elements: Elements): Jsonc.Elements {
    match elements
    case NoElement => Jsonc.NoElement
    case Element(v, rest) => Jsonc.Element(JsonOf(v), JsonElements(rest))
  }

  function JsonMembers(members: Members): Jsonc.Members {
    match members
    case NoMember => Jsonc.NoMember
    case Member(name, v, rest) => Jsonc.Member(Body(name), JsonOf(v), JsonMembers(rest))
  }

  ghost predicate AreTokens(tokens: seq<Token>) {
    forall i :: 0 <= i < |tokens| ==> IsToken(tokens[i])
  }

  lemma {:induction false} ValueTokens(v: Value)
    requires IsValue(v)
    ensures AreTokens(JsonTokens(JsonOf(v)))
  {
    match v
    case Number(chars) => JsonBlanksAreSpace();
    case Text(units) => BodyIsBody(units);
    case List(elements) => ElementsTokens(elements);
    case Object(members) => MembersTokens(members);
  }

  lemma {:induction false} ElementsTokens(elements: Elements)
    requires AreElements(elements)
    ensures AreTokens(ElementTokens(JsonElements(elements)))
  {
    if elements.Element? {
      ValueTokens(elements.value);
      ElementsTokens(elements.rest);
    }
  }

  lemma {:induction false} MembersTokens(members: Members)
    requires AreMembers(members)
    ensures AreTokens(MemberTokens(JsonMembers(members)))
  {
    if members.Member? {
      BodyIsBody(members.name);
      ValueTokens(members.value);
      MembersTokens(members.rest);
    }
  }

  /** The tokens with a space before each of them. */
  function Spaced(tokens: seq<Token>): seq<Item> {
    if tokens == [] then [] else [Space(Blank(' ')), Tok(tokens[0])] + Spaced(tokens[1..])
  }

  lemma {:induction false} SpacedIsDocument(tokens: seq<Token>)
    requires AreTokens(tokens)
    ensures IsDocument(Spaced(tokens)) && Tokens(Spaced(tokens)) == tokens
    ensures Spaced(tokens) != [] ==> Spaced(tokens)[0] == Space(Blank(' '))
  {
    if tokens != [] {
      SpacedIsDocument(tokens[1..]);
      var items, rest := Spaced(tokens), Spaced(tokens[1..]);
      assert items[1..] == [Tok(tokens[0])] + rest && items[1..][1..] == rest;
    }
  }

  /** There is a document of every JSON value, and it is read as that value. */
  lemma ValueIsRead(v: Value) returns (items: seq<Item>)
    requires IsValue(v)
    ensures IsDocument(items) && Tokens(items) == JsonTokens(JsonOf(v))
    ensures Normalized(Print(items)).Success? && Lex(Normalized(Print(items)).value) == Some(JsonTokens(JsonOf(v)))
  {
    var tokens := JsonTokens(JsonOf(v));
    ValueTokens(v);
    JsonIsClosed(JsonOf(v));
    items := Spaced(tokens);
    SpacedIsDocument(tokens);
    NormalizedTokens(items, None);
    hide IsDocument, Tokens, Lex, Normalized, Print, JsonTokens, HasNoTrailing;
    assert Print(items) + [] == Print(items);
    NothingTrails(tokens);
  }

  lemma {:induction false} NothingTrails(tokens: seq<Token>)
    requires HasNoTrailing(tokens)
    ensures WithoutTrailing(tokens) == tokens
  {
    if tokens != [] {
      TrailingStep(tokens);
      NothingTrails(tokens[1..]);
    }
  }
}

/** common/browser_automation_steps.py: JSONC text made into JSON by two scanners. */
module Jsonc {
  import opened Common
  import opened Slices
  import Texts

  datatype Error = UnterminatedBlockComment

  /** Where a scanner stands: outside strings, inside one, or after a backslash in one. */
  datatype Mode = Outside | Inside | Escaped

  predicate IsNewline(c: char) { c == '\n' || c == '\r' }

  /** White space of the JSON grammar. */
  predicate IsBlank(c: char) { c == ' ' || c == '\t' || IsNewline(c) }

  predicate IsCloser(c: char) { c == '}' || c == ']' }

  predicate IsPunctuation(c: char) { c == '{' || c == '[' || c == ':' || c == ',' || IsCloser(c) }

  /** The mode after one more character of a string literal. */
  function Next(mode: Mode, c: char): Mode
    requires mode != Outside
  {
    if mode == Escaped then Inside
    else if c == '\\' then Escaped
    else if c == '"' then Outside
    else Inside
  }

  // ---------------------------------------------------------------------------
  // Comment stage
  // ---------------------------------------------------------------------------

  function Newlines(s: string): string {
    if s == [] then []
    else (if IsNewline(s[0]) then [s[0]] else []) + Newlines(s[1..])
  }

  /** What is left from the first newline on. */
  function AfterLine(s: string): (r: string)
    ensures |r| <= |s|
  {
    if s == [] || IsNewline(s[0]) then s else AfterLine(s[1..])
  }

  /** Length of a block comment's body, when it is terminated. */
  function BlockBody(s: string): (r: Option<nat>)
    ensures r.Some? ==> r.value + 2 <= |s|
  {
    if |s| < 2 then None
    else if s[0] == '*' && s[1] == '/' then Some(0)
    else
      match BlockBody(s[1..])
      case None => None
      case Some(n) => Some(n + 1)
  }

  function Prepend(out: string, r: Result<string, Error>): Result<string, Error> {
    match r
    case Success(s) => Success(out + s)
    case Failure(_) => r
  }

  predicate StartsComment(s: string, c: char) {
    2 <= |s| && s[0] == '/' && s[1] == c
  }

  function Uncomment(s: string, mode: Mode): Result<string, Error>
    decreases |s|
  {
    if s == [] then Success([])
    else if mode != Outside then Prepend([s[0]], Uncomment(s[1..], Next(mode, s[0])))
    else if s[0] == '"' then Prepend([s[0]], Uncomment(s[1..], Inside))
    else if StartsComment(s, '/') then Uncomment(AfterLine(s[2..]), Outside)
    else if StartsComment(s, '*') then
      match BlockBody(s[2..])
      case None => Failure(UnterminatedBlockComment)
      case Some(n) => Prepend(" " + Newlines(s[2..2 + n]), Uncomment(s[2 + n + 2..], Outside))
    else Prepend([s[0]], Uncomment(s[1..], Outside))
  }

  lemma PrependTwice(a: string, b: string, r: Result<string, Error>)
    ensures Prepend(a, Prepend(b, r)) == Prepend(a + b, r)
  {
    if r.Success? {
      assert a + (b + r.value) == a + b + r.value;
    }
  }

  /** The inner loop over a line comment: the index of the newline, or the end. */
  method SkipLine(content: string, start: nat) returns (index: nat)
    requires start <= |content|
    ensures index <= |content| && AfterLine(content[start..]) == content[index..]
  {
    index := start;
    while index < |content| && !IsNewline(content[index])
      invariant index <= |content|
      invariant AfterLine(content[start..]) == AfterLine(content[index..])
    {
      assert content[index..][1..] == content[index + 1..];
      index := index + 1;
    }
  }

  /** The inner loop over a block comment: its newlines, and where its terminator starts. */
  method CopyBlock(content: string, start: nat) returns (newlines: string, index: nat)
    requires start <= |content|
    ensures start <= index <= |content|
    ensures |content| <= index + 1 <==> BlockBody(content[start..]).None?
    ensures index + 1 < |content| ==>
              BlockBody(content[start..]) == Some(index - start) && newlines == Newlines(content[start..index])
  {
    hide BlockBody, Newlines;
    index, newlines := start, [];
    assert content[start..start] == [] && Newlines([]) == [] by {
      NoNewlines();
    }
    while index + 1 < |content| && !(content[index] == '*' && content[index + 1] == '/')
      invariant start <= index <= |content|
      invariant newlines == Newlines(content[start..index])
      invariant BlockBody(content[start..]).None? <==> BlockBody(content[index..]).None?
      invariant BlockBody(content[index..]).Some? ==>
                  BlockBody(content[start..]) == Some(BlockBody(content[index..]).value + (index - start))
    {
      NewlinesSnoc(content[start..index], content[index]);
      assert content[start..index + 1] == content[start..index] + [content[index]];
      BlockStep(content, index);
      if IsNewline(content[index]) {
        newlines := newlines + [content[index]];
      }
      index := index + 1;
    }
    BlockStops(content, index);
  }

  lemma NoNewlines()
    ensures Newlines([]) == []
  {}

  lemma BlockStep(content: string, index: nat)
    requires index + 1 < |content| && !(content[index] == '*' && content[index + 1] == '/')
    ensures var body, rest := BlockBody(content[index..]), BlockBody(content[index + 1..]);
            (body.None? <==> rest.None?) && (body.Some? ==> body.value == rest.value + 1)
  {
    assert content[index..][1..] == content[index + 1..];
  }

  lemma BlockStops(content: string, index: nat)
    requires index <= |content|
    ensures |content| <= index + 1 ==> BlockBody(content[index..]).None?
    ensures index + 1 < |content| && content[index] == '*' && content[index + 1] == '/' ==>
              BlockBody(content[index..]) == Some(0)
  {}

  /** The output so far and what is still to be stripped. */
  ghost function Pending(output: string, content: string, index: nat, mode: Mode): Result<string, Error>
    requires index <= |content|
  {
    Prepend(output, Uncomment(content[index..], mode))
  }

  /** A character that is no part of a comment is copied. */
  lemma CopyStep(output: string, content: string, index: nat, mode: Mode)
    requires index < |content|
    requires mode == Outside && content[index] != '"' ==>
               !StartsComment(content[index..], '/') && !StartsComment(content[index..], '*')
    ensures var c := content[index];
            var next := if mode == Outside then if c == '"' then Inside else Outside else Next(mode, c);
            Pending(output, content, index, mode) == Pending(output + [c], content, index + 1, next)
  {
    var c := content[index];
    var next := if mode == Outside then if c == '"' then Inside else Outside else Next(mode, c);
    assert content[index..][1..] == content[index + 1..];
    PrependTwice(output, [c], Uncomment(content[index + 1..], next));
  }

  lemma LineStep(output: string, content: string, index: nat, end: nat)
    requires index + 2 <= end <= |content| && StartsComment(content[index..], '/')
    requires AfterLine(content[index + 2..]) == content[end..]
    ensures Pending(output, content, index, Outside) == Pending(output, content, end, Outside)
  {
    assert content[index..][2..] == content[index + 2..];
  }

  lemma CommentStep(output: string, content: string, index: nat, end: nat, newlines: string)
    requires index + 2 <= end <= |content| && StartsComment(content[index..], '*')
    requires |content| <= end + 1 <==> BlockBody(content[index + 2..]).None?
    requires end + 1 < |content| ==>
               && BlockBody(content[index + 2..]) == Some(end - (index + 2))
               && newlines == Newlines(content[index + 2..end])
    ensures |content| <= end + 1 ==> Pending(output, content, index, Outside) == Failure(UnterminatedBlockComment)
    ensures end + 1 < |content| ==>
              Pending(output, content, index, Outside) == Pending(output + (" " + newlines), content, end + 2, Outside)
  {
    hide BlockBody, Newlines;
    assert content[index..][2..] == content[index + 2..];
    if end + 1 < |content| {
      BlockSlices(content, index, end);
      PrependTwice(output, " " + newlines, Uncomment(content[end + 2..], Outside));
    }
  }

  lemma NothingPending(output: string, content: string, mode: Mode)
    ensures Pending(output, content, |content|, mode) == Success(output)
    ensures Pending("", content, 0, mode) == Uncomment(content, mode)
  {
    assert content[|content|..] == [] && content[0..] == content && output + [] == output;
    assert Uncomment(content, mode).Success? ==> "" + Uncomment(content, mode).value == Uncomment(content, mode).value;
  }

  /** `_strip_jsonc_comments`. */
  method StripComments(content: string) returns (r: Result<string, Error>)
    ensures r == Uncomment(content, Outside)
  {
    hide AfterLine, BlockBody, Newlines, Uncomment, Pending, Prepend;
    var output: string := [];
    var index: nat := 0;
    var inString, escaped := false, false;
    NothingPending(output, content, Outside);
    while index < |content|
      invariant index <= |content| && (escaped ==> inString)
      invariant Pending(output, content, index, ModeOf(inString, escaped)) == Uncomment(content, Outside)
      decreases |content| - index
    {
      var character := content[index];
      if inString {
        CopyStep(output, content, index, ModeOf(inString, escaped));
        output := output + [character];
        if escaped {
          escaped := false;
        } else if character == '\\' {
          escaped := true;
        } else if character == '"' {
          inString := false;
        }
        index := index + 1;
      } else if character == '"' {
        CopyStep(output, content, index, Outside);
        inString := true;
        output := output + [character];
        index := index + 1;
      } else if index + 1 < |content| && character == '/' && content[index + 1] == '/' {
        var end := SkipLine(content, index + 2);
        LineStep(output, content, index, end);
        index := end;
      } else if index + 1 < |content| && character == '/' && content[index + 1] == '*' {
        var newlines, end := CopyBlock(content, index + 2);
        CommentStep(output, content, index, end, newlines);
        if |content| <= end + 1 {
          return Failure(UnterminatedBlockComment);
        }
        output := output + (" " + newlines);
        index := end + 2;
      } else {
        CopyStep(output, content, index, Outside);
        output := output + [character];
        index := index + 1;
      }
    }
    NothingPending(output, content, ModeOf(inString, escaped));
    return Success(output);
  }

  lemma BlockSlices(content: string, index: nat, end: nat)
    requires index + 2 <= end && end + 2 <= |content|
    ensures var rest, n := content[index..], end - (index + 2);
            && rest[2..2 + n] == content[index + 2..end]
            && rest[2 + n + 2..] == content[end + 2..]
  {
    var n := end - (index + 2);
    SliceOfSlice(content, index, |content|, 2, 2 + n);
    SliceOfSlice(content, index, |content|, 2 + n + 2, |content| - index);
  }

  ghost function ModeOf(inString: bool, escaped: bool): Mode {
    if !inString then Outside else if escaped then Escaped else Inside
  }

  lemma {:induction false} NewlinesConcat(s: string, t: string)
    ensures Newlines(s + t) == Newlines(s) + Newlines(t)
  {
    if s == [] {
      assert s + t == t;
    } else {
      var head := if IsNewline(s[0]) then [s[0]] else [];
      assert (s + t)[1..] == s[1..] + t;
      assert Newlines(s + t) == head + Newlines(s[1..] + t);
      NewlinesConcat(s[1..], t);
      assert head + (Newlines(s[1..]) + Newlines(t)) == (head + Newlines(s[1..])) + Newlines(t);
    }
  }

  lemma NewlinesSnoc(s: string, c: char)
    ensures Newlines(s + [c]) == Newlines(s) + (if IsNewline(c) then [c] else [])
  {
    NewlinesConcat(s, [c]);
    assert Newlines([c]) == if IsNewline(c) then [c] else [];
  }

  // ---------------------------------------------------------------------------
  // Comma stage
  // ---------------------------------------------------------------------------

  /** What is left from the first character on that is not white space. */
  function AfterSpace(s: string): string {
    if s == [] || !Texts.IsSpace(s[0]) then s else AfterSpace(s[1..])
  }

  predicate BeforeCloser(s: string) {
    AfterSpace(s) != [] && IsCloser(AfterSpace(s)[0])
  }

  function Decomma(s: string, mode: Mode): string {
    if s == [] then []
    else if mode != Outside then [s[0]] + Decomma(s[1..], Next(mode, s[0]))
    else if s[0] == '"' then [s[0]] + Decomma(s[1..], Inside)
    else if s[0] == ',' && BeforeCloser(s[1..]) then Decomma(s[1..], Outside)
    else [s[0]] + Decomma(s[1..], Outside)
  }

  /** `_strip_jsonc_trailing_commas`. */
  method StripTrailingCommas(content: string) returns (r: string)
    ensures r == Decomma(content, Outside)
  {
    var output: string := [];
    var index: nat := 0;
    var inString, escaped := false, false;
    ghost var answer := Decomma(content, Outside);
    assert content[0..] == content;
    while index < |content|
      invariant index <= |content| && (escaped ==> inString)
      invariant output + Decomma(content[index..], ModeOf(inString, escaped)) == answer
      decreases |content| - index
    {
      ghost var rest, before := content[index..], output;
      var character := content[index];
      assert rest[0] == character && rest[1..] == content[index + 1..];
      if inString {
        output := output + [character];
        if escaped {
          escaped := false;
        } else if character == '\\' {
          escaped := true;
        } else if character == '"' {
          inString := false;
        }
        index := index + 1;
      } else if character == '"' {
        inString := true;
        output := output + [character];
        index := index + 1;
      } else {
        var dropped := false;
        if character == ',' {
          dropped := LooksAtCloser(content, index + 1);
        }
        if !dropped {
          output := output + [character];
        }
        index := index + 1;
      }
      ghost var tail := Decomma(content[index..], ModeOf(inString, escaped));
      assert before + ([character] + tail) == before + [character] + tail;
    }
    assert content[index..] == [] && output + [] == output;
    return output;
  }

  /** The lookahead loop. */
  method LooksAtCloser(content: string, start: nat) returns (closer: bool)
    requires start <= |content|
    ensures closer == BeforeCloser(content[start..])
  {
    var lookahead := start;
    while lookahead < |content| && Texts.IsSpace(content[lookahead])
      invariant lookahead <= |content|
      invariant AfterSpace(content[start..]) == AfterSpace(content[lookahead..])
    {
      assert content[lookahead..][1..] == content[lookahead + 1..];
      lookahead := lookahead + 1;
    }
    assert content[lookahead..] == [] || content[lookahead..][0] == content[lookahead];
    closer := lookahead < |content| && IsCloser(content[lookahead]);
  }

  /** The text that `_load_opencode_config` hands to the JSON parser. */
  method NormalizeConfig(content: string) returns (r: Result<string, Error>)
    ensures r == Normalized(content)
  {
    r := StripComments(content);
    if r.Success? {
      var text := StripTrailingCommas(r.value);
      r := Success(text);
    }
  }

  function Normalized(content: string): Result<string, Error> {
    match Uncomment(content, Outside)
    case Success(text) => Success(Decomma(text, Outside))
    case Failure(e) => Failure(e)
  }

  // ---------------------------------------------------------------------------
  // What the comment stage keeps, on every input
  // ---------------------------------------------------------------------------

  lemma {:induction false} AfterLineNewlines(s: string)
    ensures Newlines(AfterLine(s)) == Newlines(s)
  {
    if s != [] && !IsNewline(s[0]) {
      AfterLineNewlines(s[1..]);
    }
  }

  lemma NewlinesOfComment(s: string, n: nat)
    requires StartsComment(s, '*') && BlockBody(s[2..]) == Some(n)
    ensures Newlines(s) == Newlines(s[2..2 + n]) + Newlines(s[2 + n + 2..])
  {
    hide Newlines, BlockBody;
    BlockEnds(s[2..]);
    var body, rest := s[2..2 + n], s[2 + n + 2..];
    assert s == ['/'] + (['*'] + (body + (['*'] + (['/'] + rest))));
    NewlinesCons('/', ['*'] + (body + (['*'] + (['/'] + rest))));
    NewlinesCons('*', body + (['*'] + (['/'] + rest)));
    NewlinesConcat(body, ['*'] + (['/'] + rest));
    NewlinesCons('*', ['/'] + rest);
    NewlinesCons('/', rest);
  }

  lemma NewlinesCons(c: char, s: string)
    ensures Newlines([c] + s) == (if IsNewline(c) then [c] else []) + Newlines(s)
  {
    assert ([c] + s)[1..] == s;
  }

  /** The sequence of newline characters survives, so line numbers in later errors do. */
  lemma {:induction false} NewlinesSurvive(s: string, mode: Mode)
    ensures Uncomment(s, mode).Success? ==> Newlines(Uncomment(s, mode).value) == Newlines(s)
    decreases |s|
  {
    hide Newlines, BlockBody, AfterLine;
    if s == [] || Uncomment(s, mode).Failure? {
    } else if mode == Outside && StartsComment(s, '/') {
      assert s == [s[0]] + ([s[1]] + s[2..]);
      NewlinesCons(s[0], [s[1]] + s[2..]);
      NewlinesCons(s[1], s[2..]);
      AfterLineNewlines(s[2..]);
      NewlinesSurvive(AfterLine(s[2..]), Outside);
    } else if mode == Outside && StartsComment(s, '*') {
      var n := BlockBody(s[2..]).value;
      var body, rest := s[2..2 + n], s[2 + n + 2..];
      NewlinesOfComment(s, n);
      NewlinesSurvive(rest, Outside);
      NewlinesOfNewlines(body);
      NewlinesConcat(" " + Newlines(body), Uncomment(rest, Outside).value);
      NewlinesCons(' ', Newlines(body));
    } else {
      var next := if mode != Outside then Next(mode, s[0]) else if s[0] == '"' then Inside else Outside;
      NewlinesSurvive(s[1..], next);
      NewlinesCons(s[0], Uncomment(s[1..], next).value);
      NewlinesCons(s[0], s[1..]);
      assert s == [s[0]] + s[1..];
    }
  }

  lemma {:induction false} NewlinesOfNewlines(s: string)
    ensures Newlines(Newlines(s)) == Newlines(s)
    ensures forall i :: 0 <= i < |Newlines(s)| ==> IsNewline(Newlines(s)[i])
  {
    if s != [] {
      NewlinesOfNewlines(s[1..]);
      NewlinesConcat(if IsNewline(s[0]) then [s[0]] else [], Newlines(s[1..]));
    }
  }

  lemma {:induction false} BlockEnds(s: string)
    requires BlockBody(s).Some?
    ensures var n := BlockBody(s).value; s[n] == '*' && s[n + 1] == '/'
  {
    if !(s[0] == '*' && s[1] == '/') {
      BlockEnds(s[1..]);
    }
  }

  /** Characters that neither open a string nor start a comment pass unchanged. */
  predicate IsQuiet(c: char) { c != '"' && c != '/' }

  lemma {:induction false} QuietPasses(w: string, rest: string)
    requires forall i :: 0 <= i < |w| ==> IsQuiet(w[i])
    ensures Uncomment(w + rest, Outside) == Prepend(w, Uncomment(rest, Outside))
  {
    var r := Uncomment(rest, Outside);
    if w == [] {
      assert w + rest == rest && (r.Success? ==> [] + r.value == r.value);
    } else {
      assert (w + rest)[1..] == w[1..] + rest;
      QuietPasses(w[1..], rest);
      PrependTwice([w[0]], w[1..], r);
      assert [w[0]] + w[1..] == w;
    }
  }

  /** A character kept by the stage is followed by nothing that would turn it into the
      start of a comment. */
  lemma KeptSlash(s: string)
    requires s != [] && Uncomment(s, Outside).Success?
    requires s[0] == '/' && !StartsComment(s, '/') && !StartsComment(s, '*')
    ensures var t := Uncomment(s, Outside).value; !StartsComment(t, '/') && !StartsComment(t, '*')
  {
    var rest := s[1..];
    assert rest != [] ==> rest[0] == s[1];
  }

  /** Running the comment stage on its own output changes nothing. */
  lemma {:induction false} UncommentIsIdempotent(s: string, mode: Mode)
    requires Uncomment(s, mode).Success?
    ensures Uncomment(Uncomment(s, mode).value, mode) == Uncomment(s, mode)
    decreases |s|
  {
    var t := Uncomment(s, mode).value;
    if s == [] {
    } else if mode == Outside && StartsComment(s, '/') {
      UncommentIsIdempotent(AfterLine(s[2..]), Outside);
    } else if mode == Outside && StartsComment(s, '*') {
      var n := BlockBody(s[2..]).value;
      var body, rest := s[2..2 + n], s[2 + n + 2..];
      UncommentIsIdempotent(rest, Outside);
      NewlinesOfNewlines(body);
      QuietPasses(" " + Newlines(body), Uncomment(rest, Outside).value);
    } else {
      var next := if mode != Outside then Next(mode, s[0]) else if s[0] == '"' then Inside else Outside;
      UncommentIsIdempotent(s[1..], next);
      assert t == [s[0]] + Uncomment(s[1..], next).value && t[1..] == Uncomment(s[1..], next).value;
      if mode == Outside && s[0] == '/' {
        KeptSlash(s);
      }
    }
  }

  // ---------------------------------------------------------------------------
  // Tokens
  // ---------------------------------------------------------------------------

  /** Punctuation, a string literal without its quotes, or a number or keyword. */
  datatype Token = Punctuation(c: char) | Text(body: string) | Word(chars: string)

  /** Something between tokens: a blank, a line comment with its newline, a block comment. */
  datatype Gap = Blank(c: char) | LineComment(text: string, newline: char) | BlockComment(text: string)

  datatype Item = Tok(token: Token) | Space(gap: Gap)

  predicate IsWordChar(c: char) { !Texts.IsSpace(c) && !IsPunctuation(c) && IsQuiet(c) }

  /** The characters of a string literal: the closing quote comes after them, not before. */
  predicate IsBody(body: string, mode: Mode)
    requires mode != Outside
  {
    if body == [] then mode == Inside
    else Next(mode, body[0]) != Outside && IsBody(body[1..], Next(mode, body[0]))
  }

  predicate IsToken(t: Token) {
    match t
    case Punctuation(c) => IsPunctuation(c)
    case Text(body) => IsBody(body, Inside)
    case Word(chars) => chars != [] && forall i :: 0 <= i < |chars| ==> IsWordChar(chars[i])
  }

  predicate IsGap(g: Gap) {
    match g
    case Blank(c) => IsBlank(c)
    case LineComment(text, newline) => IsNewline(newline) && forall i :: 0 <= i < |text| ==> !IsNewline(text[i])
    case BlockComment(text) => forall i :: 0 <= i < |text| - 1 ==> !(text[i] == '*' && text[i + 1] == '/')
  }

  predicate IsItem(item: Item) {
    match item
    case Tok(t) => IsToken(t)
    case Space(g) => IsGap(g)
  }

  function TokenText(t: Token): string {
    match t
    case Punctuation(c) => [c]
    case Text(body) => ['"'] + (body + ['"'])
    case Word(chars) => chars
  }

  function ItemText(item: Item): string {
    match item
    case Tok(t) => TokenText(t)
    case Space(Blank(c)) => [c]
    case Space(LineComment(text, newline)) => ['/', '/'] + (text + [newline])
    case Space(BlockComment(text)) => ['/', '*'] + (text + ['*', '/'])
  }

  function Print(items: seq<Item>): string {
    if items == [] then [] else ItemText(items[0]) + Print(items[1..])
  }

  /** A document: valid items in which no two words touch. */
  predicate IsDocument(items: seq<Item>) {
    && (forall i :: 0 <= i < |items| ==> IsItem(items[i]))
    && (forall i :: 0 <= i < |items| - 1 ==>
          !(IsWordItem(items[i]) && IsWordItem(items[i + 1])))
  }

  predicate IsWordItem(item: Item) { item.Tok? && item.token.Word? }

  function Tokens(items: seq<Item>): seq<Token> {
    if items == [] then []
    else if items[0].Tok? then [items[0].token] + Tokens(items[1..])
    else Tokens(items[1..])
  }

  /** A comma stays unless the very next token closes an object or a list. */
  function WithoutTrailing(tokens: seq<Token>): seq<Token> {
    if tokens == [] then []
    else if IsTrailing(tokens) then WithoutTrailing(tokens[1..])
    else [tokens[0]] + WithoutTrailing(tokens[1..])
  }

  predicate IsCloserToken(t: Token) { t.Punctuation? && IsCloser(t.c) }

  predicate IsTrailing(tokens: seq<Token>) {
    2 <= |tokens| && tokens[0] == Punctuation(',') && IsCloserToken(tokens[1])
  }

  // The JSON lexer of the text that comes out.

  function TextLength(s: string, mode: Mode): (r: Option<nat>)
    requires mode != Outside
    ensures r.Some? ==> r.value < |s|
  {
    if s == [] then None
    else if Next(mode, s[0]) == Outside then Some(0)
    else
      match TextLength(s[1..], Next(mode, s[0]))
      case None => None
      case Some(n) => Some(n + 1)
  }

  function WordLength(s: string): (n: nat)
    ensures n <= |s|
  {
    if s == [] || !IsWordChar(s[0]) then 0 else 1 + WordLength(s[1..])
  }

  function Lex(s: string): Option<seq<Token>>
    decreases |s|
  {
    if s == [] then Some([])
    else if IsBlank(s[0]) then Lex(s[1..])
    else if IsPunctuation(s[0]) then Cons(Punctuation(s[0]), Lex(s[1..]))
    else if s[0] == '"' then
      match TextLength(s[1..], Inside)
      case None => None
      case Some(n) => Cons(Text(s[1..][..n]), Lex(s[1..][n + 1..]))
    else if WordLength(s) == 0 then None
    else Cons(Word(s[..WordLength(s)]), Lex(s[WordLength(s)..]))
  }

  function Cons(t: Token, rest: Option<seq<Token>>): Option<seq<Token>> {
    match rest
    case None => None
    case Some(ts) => Some([t] + ts)
  }

  // ---------------------------------------------------------------------------
  // Comment stage on documents
  // ---------------------------------------------------------------------------

  function Blanks(s: string): seq<Item> {
    seq(|s|, i requires 0 <= i < |s| => Space(Blank(s[i])))
  }

  /** A comment becomes the blanks that the stage writes for it. */
  function PlainItem(item: Item): seq<Item> {
    match item
    case Space(LineComment(_, newline)) => [Space(Blank(newline))]
    case Space(BlockComment(text)) => [Space(Blank(' '))] + Blanks(Newlines(text))
    case _ => [item]
  }

  function Plain(items: seq<Item>): seq<Item> {
    if items == [] then [] else PlainItem(items[0]) + Plain(items[1..])
  }

  lemma {:induction false} PrintConcat(a: seq<Item>, b: seq<Item>)
    ensures Print(a + b) == Print(a) + Print(b)
  {
    if a == [] {
      assert a + b == b;
    } else {
      assert (a + b)[1..] == a[1..] + b;
      PrintConcat(a[1..], b);
    }
  }

  lemma {:induction false} PrintBlanks(s: string)
    ensures Print(Blanks(s)) == s
  {
    if s != [] {
      assert Blanks(s)[1..] == Blanks(s[1..]);
      PrintBlanks(s[1..]);
    }
  }

  lemma {:induction false} BodyPasses(body: string, rest: string, mode: Mode)
    requires mode != Outside && IsBody(body, mode)
    ensures Uncomment(body + (['"'] + rest), mode) == Prepend(body + ['"'], Uncomment(rest, Outside))
    ensures Decomma(body + (['"'] + rest), mode) == body + ['"'] + Decomma(rest, Outside)
    ensures TextLength(body + (['"'] + rest), mode) == Some(|body|)
  {
    var s, r := body + (['"'] + rest), Uncomment(rest, Outside);
    if body == [] {
      assert s == ['"'] + rest && s[1..] == rest && body + ['"'] == ['"'];
    } else {
      assert s[1..] == body[1..] + (['"'] + rest);
      BodyPasses(body[1..], rest, Next(mode, body[0]));
      PrependTwice([body[0]], body[1..] + ['"'], r);
      assert [body[0]] + (body[1..] + ['"']) == body + ['"'];
    }
  }

  lemma {:induction false} LineSkipped(text: string, newline: char, rest: string)
    requires IsGap(LineComment(text, newline))
    ensures AfterLine(text + ([newline] + rest)) == [newline] + rest
  {
    var s := text + ([newline] + rest);
    if text == [] {
      assert s == [newline] + rest;
    } else {
      assert s[1..] == text[1..] + ([newline] + rest);
      LineSkipped(text[1..], newline, rest);
    }
  }

  lemma {:induction false} BlockSkipped(text: string, rest: string)
    requires IsGap(BlockComment(text))
    ensures BlockBody(text + (['*', '/'] + rest)) == Some(|text|)
  {
    var s := text + (['*', '/'] + rest);
    if text == [] {
      assert s == ['*', '/'] + rest;
    } else {
      assert s[1..] == text[1..] + (['*', '/'] + rest);
      assert s[0] == text[0] && s[1] == (if |text| == 1 then '*' else text[1]);
      assert IsGap(BlockComment(text[1..]));
      BlockSkipped(text[1..], rest);
    }
  }

  lemma PrintOne(item: Item)
    ensures Print([item]) == ItemText(item)
  {
    assert [item][1..] == [];
  }

  lemma TextUncommented(body: string, rest: string)
    requires IsBody(body, Inside)
    ensures var t := ['"'] + (body + ['"']);
            Uncomment(t + rest, Outside) == Prepend(t, Uncomment(rest, Outside))
  {
    var t := ['"'] + (body + ['"']);
    assert t + rest == ['"'] + (body + (['"'] + rest)) && (t + rest)[1..] == body + (['"'] + rest);
    BodyPasses(body, rest, Inside);
    PrependTwice(['"'], body + ['"'], Uncomment(rest, Outside));
  }

  lemma LineUncommented(text: string, newline: char, rest: string)
    requires IsGap(LineComment(text, newline))
    ensures Uncomment(['/', '/'] + (text + [newline]) + rest, Outside)
         == Prepend([newline], Uncomment(rest, Outside))
  {
    var s := ['/', '/'] + (text + [newline]) + rest;
    assert s == ['/', '/'] + (text + ([newline] + rest)) && s[2..] == text + ([newline] + rest);
    LineSkipped(text, newline, rest);
    QuietPasses([newline], rest);
  }

  lemma BlockUncommented(text: string, rest: string)
    requires IsGap(BlockComment(text))
    ensures Uncomment(['/', '*'] + (text + ['*', '/']) + rest, Outside)
         == Prepend(" " + Newlines(text), Uncomment(rest, Outside))
  {
    hide Newlines;
    var s := ['/', '*'] + (text + ['*', '/']) + rest;
    assert s == ['/', '*'] + (text + (['*', '/'] + rest)) && s[2..] == text + (['*', '/'] + rest);
    BlockSkipped(text, rest);
    assert s[2..2 + |text|] == text && s[2 + |text| + 2..] == rest;
  }

  /** One item at the front of the text: it passes, or is replaced by its blanks. */
  lemma ItemUncommented(item: Item, rest: string)
    requires IsItem(item)
    ensures Uncomment(ItemText(item) + rest, Outside)
         == Prepend(Print(PlainItem(item)), Uncomment(rest, Outside))
  {
    hide Uncomment, Newlines, IsBody;
    match item
    case Tok(Text(body)) =>
      TextUncommented(body, rest);
      PrintOne(item);
    case Tok(Punctuation(c)) =>
      QuietPasses([c], rest);
      PrintOne(item);
    case Tok(Word(chars)) =>
      QuietPasses(chars, rest);
      PrintOne(item);
    case Space(Blank(c)) =>
      QuietPasses([c], rest);
      PrintOne(item);
    case Space(LineComment(text, newline)) =>
      LineUncommented(text, newline, rest);
      PrintOne(Space(Blank(newline)));
    case Space(BlockComment(text)) =>
      BlockUncommented(text, rest);
      PrintConcat([Space(Blank(' '))], Blanks(Newlines(text)));
      PrintOne(Space(Blank(' ')));
      PrintBlanks(Newlines(text));
  }

  /** The comment stage writes the document with blanks for comments, and all of it. */
  lemma {:induction false} DocumentUncommented(items: seq<Item>, rest: string)
    requires forall i :: 0 <= i < |items| ==> IsItem(items[i])
    ensures Uncomment(Print(items) + rest, Outside) == Prepend(Print(Plain(items)), Uncomment(rest, Outside))
  {
    var r := Uncomment(rest, Outside);
    if items == [] {
      assert Print(items) + rest == rest && (r.Success? ==> [] + r.value == r.value);
    } else {
      var more := Print(items[1..]) + rest;
      assert Print(items) + rest == ItemText(items[0]) + more;
      ItemUncommented(items[0], more);
      DocumentUncommented(items[1..], rest);
      PrependTwice(Print(PlainItem(items[0])), Print(Plain(items[1..])), r);
      PrintConcat(PlainItem(items[0]), Plain(items[1..]));
    }
  }

  ghost predicate IsPlain(items: seq<Item>) {
    forall i :: 0 <= i < |items| ==> IsItem(items[i]) && (items[i].Space? ==> items[i].gap.Blank?)
  }

  predicate StartsWithWord(items: seq<Item>) { items != [] && IsWordItem(items[0]) }

  lemma TokensOfBlanks(s: string, rest: seq<Item>)
    ensures Tokens(Blanks(s) + rest) == Tokens(rest)
  {
    if s == [] {
      assert Blanks(s) + rest == rest;
    } else {
      assert (Blanks(s) + rest)[1..] == Blanks(s[1..]) + rest;
      TokensOfBlanks(s[1..], rest);
    }
  }

  lemma {:induction false} NewlinesAreBlank(s: string)
    ensures forall i :: 0 <= i < |Newlines(s)| ==> IsBlank(Newlines(s)[i])
  {
    NewlinesOfNewlines(s);
  }

  lemma PlainItemFacts(item: Item, rest: seq<Item>)
    requires IsItem(item)
    ensures PlainItem(item) != [] && IsPlain(PlainItem(item))
    ensures IsWordItem(PlainItem(item)[0]) <==> IsWordItem(item)
    ensures forall i :: 0 < i < |PlainItem(item)| ==> !IsWordItem(PlainItem(item)[i])
    ensures item.Tok? ==> PlainItem(item) == [item]
    ensures Tokens(PlainItem(item) + rest) == (if item.Tok? then [item.token] else []) + Tokens(rest)
  {
    var first := PlainItem(item);
    match item
    case Space(BlockComment(text)) =>
      NewlinesAreBlank(text);
      assert (first + rest)[1..] == Blanks(Newlines(text)) + rest;
      TokensOfBlanks(Newlines(text), rest);
    case _ =>
      assert (first + rest)[1..] == rest;
  }

  lemma JoinedPlain(first: seq<Item>, rest: seq<Item>)
    requires first != [] && IsPlain(first) && IsPlain(rest) && IsDocument(rest)
    requires forall i :: 0 < i < |first| ==> !IsWordItem(first[i])
    requires !(IsWordItem(first[|first| - 1]) && StartsWithWord(rest))
    ensures IsPlain(first + rest) && IsDocument(first + rest)
    ensures StartsWithWord(first + rest) <==> IsWordItem(first[0])
  {
    var all := first + rest;
    hide IsItem, IsWordItem;
    forall i | 0 <= i < |all| - 1 ensures !(IsWordItem(all[i]) && IsWordItem(all[i + 1])) {
      if i >= |first| {
        assert all[i] == rest[i - |first|] && all[i + 1] == rest[i + 1 - |first|];
      }
    }
  }

  /** Plain documents are documents with the same tokens, blanks only between them. */
  lemma {:induction false} PlainDocument(items: seq<Item>)
    requires IsDocument(items)
    ensures IsPlain(Plain(items)) && IsDocument(Plain(items))
    ensures Tokens(Plain(items)) == Tokens(items)
    ensures StartsWithWord(Plain(items)) <==> StartsWithWord(items)
  {
    if items != [] {
      var first, rest := PlainItem(items[0]), Plain(items[1..]);
      PlainDocument(items[1..]);
      PlainItemFacts(items[0], rest);
      TokensStep(items);
      assert StartsWithWord(rest) ==> IsWordItem(items[1]);
      hide PlainItem, Tokens, IsItem, IsWordItem;
      JoinedPlain(first, rest);
    }
  }

  lemma TokensStep(items: seq<Item>)
    requires items != []
    ensures Tokens(items) == (if items[0].Tok? then [items[0].token] else []) + Tokens(items[1..])
  {
  }

  /** The items without the commas that the comma stage drops. */
  function Prune(items: seq<Item>): seq<Item> {
    if items == [] then []
    else if items[0].Tok? && IsTrailing(Tokens(items)) then Prune(items[1..])
    else [items[0]] + Prune(items[1..])
  }

  lemma {:induction false} PrunedTokens(items: seq<Item>)
    ensures Tokens(Prune(items)) == WithoutTrailing(Tokens(items))
  {
    if items != [] {
      PrunedTokens(items[1..]);
      if items[0].Tok? {
        assert Tokens(items)[1..] == Tokens(items[1..]);
      }
      assert ([items[0]] + Prune(items[1..]))[1..] == Prune(items[1..]);
    }
  }

  lemma {:induction false} PrunedDocument(items: seq<Item>)
    requires IsPlain(items) && IsDocument(items)
    ensures IsPlain(Prune(items)) && IsDocument(Prune(items))
    ensures StartsWithWord(Prune(items)) ==> StartsWithWord(items)
  {
    if items != [] {
      PrunedDocument(items[1..]);
      if items[0].Tok? {
        assert Tokens(items)[1..] == Tokens(items[1..]);
      }
    }
  }

  /** Past white space stands the first character of the next token. */
  lemma {:induction false} NextTokenAhead(items: seq<Item>)
    requires IsPlain(items)
    ensures BeforeCloser(Print(items)) <==> Tokens(items) != [] && IsCloserToken(Tokens(items)[0])
  {
    if items != [] {
      match items[0]
      case Space(gap) =>
        assert Print(items)[1..] == Print(items[1..]);
        NextTokenAhead(items[1..]);
      case Tok(t) =>
        assert Print(items)[0] == TokenText(t)[0];
    }
  }

  lemma {:induction false} WordPasses(w: string, rest: string)
    requires forall i :: 0 <= i < |w| ==> w[i] != '"' && w[i] != ','
    ensures Decomma(w + rest, Outside) == w + Decomma(rest, Outside)
  {
    if w == [] {
      assert w + rest == rest;
    } else {
      assert (w + rest)[1..] == w[1..] + rest;
      WordPasses(w[1..], rest);
    }
  }

  lemma TextKept(body: string, rest: string)
    requires IsBody(body, Inside)
    ensures var t := ['"'] + (body + ['"']); Decomma(t + rest, Outside) == t + Decomma(rest, Outside)
  {
    var t := ['"'] + (body + ['"']);
    assert (t + rest)[1..] == body + (['"'] + rest);
    BodyPasses(body, rest, Inside);
    assert t + Decomma(rest, Outside) == ['"'] + (body + ['"'] + Decomma(rest, Outside));
  }

  /** The comma stage on a plain document drops exactly the trailing commas. */
  lemma {:induction false} DocumentDecommaed(items: seq<Item>)
    requires IsPlain(items)
    ensures Decomma(Print(items), Outside) == Print(Prune(items))
  {
    if items != [] {
      var rest := Print(items[1..]);
      DocumentDecommaed(items[1..]);
      if items[0].Tok? {
        assert Tokens(items)[1..] == Tokens(items[1..]);
      }
      assert ([items[0]] + Prune(items[1..]))[1..] == Prune(items[1..]);
      match items[0]
      case Tok(Text(body)) =>
        TextKept(body, rest);
      case Tok(Punctuation(c)) =>
        NextTokenAhead(items[1..]);
        assert Print(items)[0] == c && Print(items)[1..] == rest;
      case Tok(Word(chars)) =>
        WordPasses(chars, rest);
      case Space(gap) =>
        WordPasses([gap.c], rest);
    }
  }

  lemma {:induction false} WordRead(w: string, rest: string)
    requires forall i :: 0 <= i < |w| ==> IsWordChar(w[i])
    requires rest != [] ==> !IsWordChar(rest[0])
    ensures WordLength(w + rest) == |w|
  {
    if w == [] {
      assert w + rest == rest;
    } else {
      assert (w + rest)[1..] == w[1..] + rest;
      WordRead(w[1..], rest);
    }
  }

  lemma TextLexed(body: string, rest: string)
    requires IsBody(body, Inside)
    ensures Lex(['"'] + (body + ['"']) + rest) == Cons(Text(body), Lex(rest))
  {
    var s := ['"'] + (body + ['"']) + rest;
    assert s[1..] == body + (['"'] + rest);
    BodyPasses(body, rest, Inside);
    assert s[1..][..|body|] == body && s[1..][|body| + 1..] == rest;
  }

  lemma WordLexed(w: string, rest: string)
    requires IsToken(Word(w)) && (rest != [] ==> !IsWordChar(rest[0]))
    ensures Lex(w + rest) == Cons(Word(w), Lex(rest))
  {
    var s := w + rest;
    WordRead(w, rest);
    assert s[..|w|] == w && s[|w|..] == rest && s[0] == w[0];
  }

  /** Tokens read back from a plain document: none lost, none fused, literals verbatim. */
  lemma {:induction false} LexOfDocument(items: seq<Item>)
    requires IsPlain(items) && IsDocument(items)
    ensures Lex(Print(items)) == Some(Tokens(items))
  {
    hide IsBody, Texts.IsSpace;
    if items != [] {
      var s, rest := Print(items), Print(items[1..]);
      LexOfDocument(items[1..]);
      match items[0]
      case Tok(Text(body)) =>
        TextLexed(body, rest);
      case Tok(Punctuation(c)) =>
        assert s[0] == c && s[1..] == rest;
      case Tok(Word(chars)) =>
        WordEnds(items);
        WordLexed(chars, rest);
      case Space(gap) =>
        assert s[0] == gap.c && s[1..] == rest;
    }
  }

  /** No word is followed by a character that could belong to it. */
  lemma WordEnds(items: seq<Item>)
    requires IsPlain(items) && IsDocument(items) && StartsWithWord(items)
    ensures var rest := Print(items[1..]); rest != [] ==> !IsWordChar(rest[0])
  {
    if 1 < |items| {
      assert !IsWordItem(items[1]);
      assert Print(items[1..])[0] == ItemText(items[1])[0];
    }
  }

  /** The whole normaliser on a JSONC document, with or without a last line comment that
      no newline ends: the JSON lexer then reads the document's tokens, string literals
      byte for byte, less the commas that stood directly before a closing token. */
  lemma NormalizedTokens(items: seq<Item>, last: Option<string>)
    requires IsDocument(items)
    requires last.Some? ==> forall i :: 0 <= i < |last.value| ==> !IsNewline(last.value[i])
    ensures var tail := if last.Some? then "//" + last.value else [];
            var r := Normalized(Print(items) + tail);
            r.Success? && Lex(r.value) == Some(WithoutTrailing(Tokens(items)))
  {
    var tail := if last.Some? then "//" + last.value else [];
    assert Uncomment(tail, Outside) == Success([]) by {
      if last.Some? {
        assert tail[2..] == last.value;
        LastLineSkipped(last.value);
      }
    }
    DocumentUncommented(items, tail);
    PlainDocument(items);
    var plain := Plain(items);
    assert Print(plain) + [] == Print(plain);
    DocumentDecommaed(plain);
    PrunedDocument(plain);
    PrunedTokens(plain);
    LexOfDocument(Prune(plain));
  }

  lemma {:induction false} LastLineSkipped(text: string)
    requires forall i :: 0 <= i < |text| ==> !IsNewline(text[i])
    ensures AfterLine(text) == []
  {
    if text != [] {
      LastLineSkipped(text[1..]);
    }
  }

  // ---------------------------------------------------------------------------
  // Trailing commas
  // ---------------------------------------------------------------------------

  /** No comma stands directly before a closing token. */
  predicate HasNoTrailing(tokens: seq<Token>) {
    forall i :: 0 <= i < |tokens| ==> !IsTrailing(tokens[i..])
  }

  /** The tokens with a comma added before each closing token that `chosen` names. */
  function WithTrailing(tokens: seq<Token>, chosen: seq<bool>): seq<Token>
    requires |chosen| == |tokens|
  {
    if tokens == [] then []
    else (if chosen[0] && IsCloserToken(tokens[0]) then [Punctuation(',')] else [])
         + ([tokens[0]] + WithTrailing(tokens[1..], chosen[1..]))
  }

  /** At most one extra comma before each closing token goes, and only that. */
  lemma {:induction false} OneTrailingCommaEach(tokens: seq<Token>, chosen: seq<bool>)
    requires |chosen| == |tokens| && HasNoTrailing(tokens)
    ensures WithoutTrailing(WithTrailing(tokens, chosen)) == tokens
  {
    if tokens != [] {
      var rest, more := tokens[1..], WithTrailing(tokens[1..], chosen[1..]);
      forall i | 0 <= i < |rest| ensures !IsTrailing(rest[i..]) {
        assert rest[i..] == tokens[i + 1..];
      }
      OneTrailingCommaEach(rest, chosen[1..]);
      assert tokens[0..] == tokens && !IsTrailing(tokens);
      var kept := [tokens[0]] + more;
      assert kept[1..] == more;
      if rest != [] {
        assert more[0] == rest[0] || (more[0] == Punctuation(',') && IsCloserToken(rest[0]));
      }
      assert WithoutTrailing(kept) == tokens;
      if chosen[0] && IsCloserToken(tokens[0]) {
        assert ([Punctuation(',')] + kept)[1..] == kept;
      } else {
        assert [] + kept == kept;
      }
    }
  }

  /** And nothing else does: the commas that go are one before each of some closing tokens. */
  lemma {:induction false} RemovedCommas(tokens: seq<Token>) returns (chosen: seq<bool>)
    requires HasNoTrailing(WithoutTrailing(tokens))
    ensures |chosen| == |WithoutTrailing(tokens)| && tokens == WithTrailing(WithoutTrailing(tokens), chosen)
  {
    if tokens == [] {
      chosen := [];
    } else {
      var rest := tokens[1..];
      var kept := WithoutTrailing(rest);
      if IsTrailing(tokens) {
        var more := RemovedCommas(rest);
        assert kept[0] == rest[0] == tokens[1];
        assert !more[0];
        chosen := [true] + more[1..];
        assert chosen[1..] == more[1..];
        assert tokens == [tokens[0]] + rest && rest == [] + ([kept[0]] + WithTrailing(kept[1..], more[1..]));
        assert [kept[0]] + WithTrailing(kept[1..], more[1..]) == rest;
      } else {
        assert ([tokens[0]] + kept)[1..] == kept;
        TrailingStep([tokens[0]] + kept);
        var more := RemovedCommas(rest);
        chosen := [false] + more;
        assert chosen[1..] == more && tokens == [] + ([tokens[0]] + rest);
      }
    }
  }

  // The grammar of strict JSON, over tokens.

  datatype Json = Literal(chars: string) | Str(body: string) | List(elements: Elements) | Object(members: Members)
  datatype Elements = NoElement | Element(value: Json, rest: Elements)
  datatype Members = NoMember | Member(name: string, value: Json, rest: Members)

  function JsonTokens(v: Json): seq<Token> {
    match v
    case Literal(chars) => [Word(chars)]
    case Str(body) => [Text(body)]
    case List(elements) => [Punctuation('[')] + ElementTokens(elements) + [Punctuation(']')]
    case Object(members) => [Punctuation('{')] + MemberTokens(members) + [Punctuation('}')]
  }

  function ElementTokens(elements: Elements): seq<Token> {
    match elements
    case NoElement => []
    case Element(v, rest) =>
      if rest.NoElement? then JsonTokens(v) else JsonTokens(v) + [Punctuation(',')] + ElementTokens(rest)
  }

  function MemberTokens(members: Members): seq<Token> {
    match members
    case NoMember => []
    case Member(name, v, rest) =>
      var member := [Text(name), Punctuation(':')] + JsonTokens(v);
      if rest.NoMember? then member else member + [Punctuation(',')] + MemberTokens(rest)
  }

  /** Tokens that may follow and be followed by a comma. */
  predicate IsClosed(tokens: seq<Token>) {
    && tokens != [] && HasNoTrailing(tokens)
    && !IsCloserToken(tokens[0]) && tokens[|tokens| - 1] != Punctuation(',')
  }

  lemma Concatenated(a: seq<Token>, b: seq<Token>)
    requires HasNoTrailing(a) && HasNoTrailing(b)
    requires a == [] || b == [] || a[|a| - 1] != Punctuation(',') || !IsCloserToken(b[0])
    ensures HasNoTrailing(a + b)
  {
    var all := a + b;
    forall i | 0 <= i < |all| ensures !IsTrailing(all[i..]) {
      if i < |a| {
        assert !IsTrailing(a[i..]) && all[i..][0] == a[i];
        assert i + 1 < |a| ==> all[i..][1] == a[i..][1];
      } else {
        assert all[i..] == b[i - |a|..];
      }
    }
  }

  lemma Joined(a: seq<Token>, b: seq<Token>)
    requires IsClosed(a) && IsClosed(b)
    ensures IsClosed(a + [Punctuation(',')] + b)
  {
    var comma := [Punctuation(',')];
    assert forall i :: 0 <= i < 1 ==> |comma[i..]| == 1;
    Concatenated(a, comma);
    Concatenated(a + comma, b);
  }

  lemma Bracketed(open: Token, inner: seq<Token>, close: Token)
    requires inner == [] || IsClosed(inner)
    requires !IsCloserToken(open) && open != Punctuation(',') && close != Punctuation(',')
    ensures IsClosed([open] + inner + [close])
  {
    assert forall i :: 0 <= i < 1 ==> |[open][i..]| == 1 && |[close][i..]| == 1;
    Concatenated([open], inner);
    Concatenated([open] + inner, [close]);
  }

  lemma {:induction false} JsonIsClosed(v: Json)
    ensures IsClosed(JsonTokens(v))
  {
    match v
    case Literal(chars) => assert |[Word(chars)][0..]| == 1;
    case Str(body) => assert |[Text(body)][0..]| == 1;
    case List(elements) =>
      ElementsAreClosed(elements);
      Bracketed(Punctuation('['), ElementTokens(elements), Punctuation(']'));
    case Object(members) =>
      MembersAreClosed(members);
      Bracketed(Punctuation('{'), MemberTokens(members), Punctuation('}'));
  }

  lemma {:induction false} ElementsAreClosed(elements: Elements)
    ensures elements.NoElement? || IsClosed(ElementTokens(elements))
    ensures elements.NoElement? ==> ElementTokens(elements) == []
  {
    match elements
    case NoElement =>
    case Element(v, rest) =>
      JsonIsClosed(v);
      ElementsAreClosed(rest);
      if rest.Element? {
        Joined(JsonTokens(v), ElementTokens(rest));
      }
  }

  lemma {:induction false} MembersAreClosed(members: Members)
    ensures members.NoMember? || IsClosed(MemberTokens(members))
    ensures members.NoMember? ==> MemberTokens(members) == []
  {
    match members
    case NoMember =>
    case Member(name, v, rest) =>
      var head := [Text(name), Punctuation(':')];
      var member := head + JsonTokens(v);
      JsonIsClosed(v);
      MembersAreClosed(rest);
      assert forall i :: 0 <= i < 2 ==> !IsTrailing(head[i..]);
      Concatenated(head, JsonTokens(v));
      if rest.Member? {
        Joined(member, MemberTokens(rest));
      }
  }

  /** A document is read as a strict JSON value, if and only if it has the tokens of that value
      with at most one extra comma before each closing token. */
  lemma StrictJsonIsRead(items: seq<Item>, last: Option<string>, v: Json)
    requires IsDocument(items)
    requires last.Some? ==> forall i :: 0 <= i < |last.value| ==> !IsNewline(last.value[i])
    ensures var r := Normalized(Print(items) + if last.Some? then "//" + last.value else []);
            && r.Success?
            && (Lex(r.value) == Some(JsonTokens(v))
                <==> exists chosen ::
                       |chosen| == |JsonTokens(v)| && Tokens(items) == WithTrailing(JsonTokens(v), chosen))
  {
    NormalizedTokens(items, last);
    JsonIsClosed(v);
    hide Normalized, Lex, Print, Tokens, IsDocument, JsonTokens, HasNoTrailing;
    if chosen: seq<bool> :| |chosen| == |JsonTokens(v)| && Tokens(items) == WithTrailing(JsonTokens(v), chosen) {
      OneTrailingCommaEach(JsonTokens(v), chosen);
    }
    if WithoutTrailing(Tokens(items)) == JsonTokens(v) {
      var chosen := RemovedCommas(Tokens(items));
    }
  }

  /** A comma directly before a trailing comma. */
  predicate IsDoubled(tokens: seq<Token>) {
    tokens != [] && tokens[0] == Punctuation(',') && IsTrailing(tokens[1..])
  }

  lemma TrailingStep(tokens: seq<Token>)
    requires tokens != []
    ensures HasNoTrailing(tokens) <==> !IsTrailing(tokens) && HasNoTrailing(tokens[1..])
  {
    assert tokens[0..] == tokens;
    forall i | 0 <= i < |tokens[1..]| ensures tokens[1..][i..] == tokens[i + 1..] {}
    if !IsTrailing(tokens) && HasNoTrailing(tokens[1..]) {
      forall i | 0 <= i < |tokens| ensures !IsTrailing(tokens[i..]) {
        assert i > 0 ==> tokens[i..] == tokens[1..][i - 1..];
      }
    }
  }

  /** The comma stage leaves a comma before a closing token exactly when two stand there. */
  lemma {:induction false} NoTrailingUnlessDoubled(tokens: seq<Token>)
    ensures HasNoTrailing(WithoutTrailing(tokens)) <==> forall i :: 0 <= i < |tokens| ==> !IsDoubled(tokens[i..])
    ensures IsTrailing(WithoutTrailing(tokens)) <==> IsDoubled(tokens)
  {
    if tokens != [] {
      var rest := tokens[1..];
      var kept := WithoutTrailing(rest);
      NoTrailingUnlessDoubled(rest);
      assert tokens[0..] == tokens;
      forall i | 0 < i < |tokens| ensures tokens[i..] == rest[i - 1..] {}
      assert (forall i :: 0 <= i < |tokens| ==> !IsDoubled(tokens[i..])) <==>
             !IsDoubled(tokens) && forall i :: 0 <= i < |rest| ==> !IsDoubled(rest[i..]) by {
        forall i | 0 <= i < |rest| ensures rest[i..] == tokens[i + 1..] {}
      }
      if !IsTrailing(tokens) {
        TrailingStep([tokens[0]] + kept);
        assert ([tokens[0]] + kept)[1..] == kept;
      }
    }
  }

  /** Two commas before a closing token: one is left, for the JSON parser to reject. */
  lemma TwoTrailingCommasLeaveOne()
    ensures var comma, close := Punctuation(','), Punctuation(']');
            WithoutTrailing([comma, comma, close]) == [comma, close]
  {
    var comma, close := Punctuation(','), Punctuation(']');
    assert [comma, comma, close][1..] == [comma, close];
    assert [comma, close][1..] == [close] && [close][1..] == [];
    assert WithoutTrailing([close]) == [close];
  }
}

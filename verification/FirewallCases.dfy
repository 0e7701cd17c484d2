/** common/cachyos_firewall.py: the words of a status line, and what a rule decides, written out. */
module FirewallCases {
  import opened Common
  import opened Texts
  import opened Firewall

  /** A packet is let in if the first rule that matches it is an allow or a limit. */
  lemma FirstRuleDecides(rules: seq<Rule>, p: Packet, k: nat)
    requires IsFirstMatch(rules, p, k)
    ensures Accepts(rules, p) <==> rules[k].action == Allow || rules[k].action == Limit
    ensures rules[k].action != Elsewise && rules[k].v6 == p.v6
    ensures exists range :: range in rules[k].ports && range.low <= p.port <= range.high
    ensures rules[k].protocol.Some? ==> rules[k].protocol.value == p.protocol
    ensures rules[k].source.Some? ==> rules[k].source.value.low <= p.source <= rules[k].source.value.high
    ensures rules[k].to.Some? ==> rules[k].to.value.low <= p.to <= rules[k].to.value.high
  {
    FirstMatchAt(rules, p, k);
  }

  /** Ports in a line: one alone as a number, a range with a colon, several with commas. */
  lemma PortsInWords(n: nat, m: nat, first: Range, second: Range, rest: seq<Range>)
    ensures ShownRange(Range(n, n)) == Decimal(n)
    ensures n != m ==> ShownRange(Range(n, m)) == Decimal(n) + ":" + Decimal(m)
    ensures ShownPorts([first]) == ShownRange(first)
    ensures ShownPorts([first, second] + rest) == ShownRange(first) + "," + ShownPorts([second] + rest)
  {
    assert ([first, second] + rest)[1..] == [second] + rest;
  }

  predicate AreSpaces(s: string) {
    forall i :: 0 <= i < |s| ==> IsSpace(s[i])
  }

  /** The text begins with the word, and goes on with a space. */
  ghost predicate Begins(text: string, word: string) {
    exists c, rest :: IsSpace(c) && text == word + [c] + rest
  }

  /** A bracket, spaces, and such a text are found. */
  ghost predicate BeginsBehindBracket(line: string, word: string) {
    exists front, spaces, text ::
      line == front + "]" + spaces + text && spaces != "" && AreSpaces(spaces) && Begins(text, word)
  }

  /** A line shows a word at its beginning, or behind a bracket and spaces. */
  lemma WordInWords(line: string, word: string)
    requires word != "" && !IsSpace(word[0])
    ensures ShowsWord(line, word) <==> Begins(line, word) || BeginsBehindBracket(line, word)
  {
    BeginningInWords(line, word);
    if i :| 0 <= i < |line| - 1 && line[i] == ']' && IsSpace(line[i + 1])
            && BeginsWithWord(DropSpaces(line[i + 1..]), word) {
      FoundBehindBracket(line, word, i);
    }
    hide Begins, BeginsWithWord, DropSpaces;
    if BeginsBehindBracket(line, word) {
      var front, spaces, text :|
        line == front + "]" + spaces + text && spaces != "" && AreSpaces(spaces) && Begins(text, word);
      ShownBehindBracket(front, spaces, text, word);
    }
  }

  lemma FoundBehindBracket(line: string, word: string, i: nat)
    requires i < |line| - 1 && line[i] == ']' && IsSpace(line[i + 1])
    requires BeginsWithWord(DropSpaces(line[i + 1..]), word)
    ensures BeginsBehindBracket(line, word)
  {
    var spaces := SpacesBefore(line[i + 1..]);
    var text := DropSpaces(line[i + 1..]);
    BeginningInWords(text, word);
    assert line[i + 1..][0] == line[i + 1];
    hide Begins, BeginsWithWord, DropSpaces;
    assert line == line[..i] + "]" + line[i + 1..];
    assert line == line[..i] + "]" + spaces + text;
  }

  lemma ShownBehindBracket(front: string, spaces: string, text: string, word: string)
    requires spaces != "" && AreSpaces(spaces) && Begins(text, word) && word != "" && !IsSpace(word[0])
    ensures ShowsWord(front + "]" + spaces + text, word)
  {
    var line, i := front + "]" + spaces + text, |front|;
    assert text != "" && text[0] == word[0];
    BeginningInWords(text, word);
    SpacesDropped(spaces, text);
    hide Begins, BeginsWithWord, DropSpaces;
    assert line[i + 1..] == spaces + text && line[i] == ']' && line[i + 1] == spaces[0];
  }

  lemma BeginningInWords(text: string, word: string)
    ensures BeginsWithWord(text, word) <==> Begins(text, word)
  {
    if BeginsWithWord(text, word) {
      assert text == word + [text[|word|]] + text[|word| + 1..];
    }
    if c, rest :| IsSpace(c) && text == word + [c] + rest {
      assert text[0..|word|] == word && text[|word|] == c;
    }
  }

  lemma {:induction false} SpacesBefore(text: string) returns (spaces: string)
    ensures AreSpaces(spaces) && text == spaces + DropSpaces(text)
    ensures text != "" && IsSpace(text[0]) ==> spaces != ""
  {
    spaces := "";
    if text != "" && IsSpace(text[0]) {
      spaces := SpacesBefore(text[1..]);
      spaces := [text[0]] + spaces;
      assert text == [text[0]] + text[1..];
    }
  }

  lemma {:induction false} SpacesDropped(spaces: string, text: string)
    requires AreSpaces(spaces) && text != "" && !IsSpace(text[0])
    ensures DropSpaces(spaces + text) == text
  {
    if spaces == "" {
      assert spaces + text == text;
    } else {
      assert (spaces + text)[1..] == spaces[1..] + text;
      SpacesDropped(spaces[1..], text);
    }
  }

  /** The line that `ufw` shows for a guard is taken for one exactly with its action and its
      comment. */
  lemma GuardLineInWords(word: string, verb: string, from: string, comment: string, r: Rule, g: Guard)
    requires r.line == word + " " + verb + " " + from + " " + comment && ']' !in r.line
    requires word == ShownRange(g.ports) + "/" + g.protocol
    ensures IsGuardLine(r, g, true) || IsGuardLine(r, g, false)
       <==> Contains(r.line, "DENY IN") && Contains(r.line, "# basaltwater-cachyos:guard")
  {
    assert r.line == word + [' '] + (verb + " " + from + " " + comment);
    BeginningInWords(r.line, word);
    hide Contains, BeginsWithWord, ShownRange, DropSpaces;
  }

  /** Setup deletes the lines that end with its allow comment, spaces aside, and no others. */
  lemma ManagedInWords(line: string)
    ensures IsManaged(line) <==> exists front :: TrimEnd(line) == front + "# basaltwater-cachyos:allow"
  {
    var text := TrimEnd(line);
    if IsManaged(line) {
      assert text == text[..|text| - |AllowMark|] + AllowMark;
    }
    if front :| text == front + "# basaltwater-cachyos:allow" {
      assert text[|front|..|front| + |AllowMark|] == AllowMark;
    }
  }

  /** One part of a column, as numbers: it is clear of the guard if its first number lies above,
      or both numbers can be read and the last lies below. */
  lemma PartInWords(low: nat, high: nat, ports: Range)
    ensures IsClear(Decimal(low), ports) <==> low > ports.high || low < ports.low
    ensures IsClear(Decimal(low) + ":" + Decimal(high), ports) <==> low > ports.high || high < ports.low
  {
    DecimalIsPlain(low);
    DecimalIsPlain(high);
    DecimalReadsBack(low);
    DecimalReadsBack(high);
    var first, last := Decimal(low), Decimal(high);
    PartsOfRange(first, last);
    hide Decimal, Split, Int;
  }

  lemma PartsOfRange(first: string, last: string)
    requires ':' !in first && ':' !in last
    ensures Split(first, ':') == [first] && Split(first + ":" + last, ':') == [first, last]
  {
    SplitFirst(first, ':', last);
    SplitFirst(last, ':', "");
    assert first + ":" + last == first + [':'] + last;
    hide Split;
  }
}

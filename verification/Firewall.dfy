/** common/cachyos_firewall.py: UFW rules with their status lines, their first-match
    meaning, the verification of rule order and the rewrite of the rule list. */
module Firewall {
  import opened Common
  import opened Texts

  datatype Action = Allow | Limit | Deny | Reject | Elsewise

  /** An inclusive range of ports or of addresses. */
  datatype Range = Range(low: nat, high: nat)
  {
    predicate Has(n: nat) { low <= n <= high }
    predicate Meets(other: Range) {
      low <= high && other.low <= other.high && low <= other.high && other.low <= high
    }
  }

  /** A rule is what it does, and the text that the numbered status shows after its number.
      The text need not tell everything: an address hides the ports, for instance. */
  datatype Rule = Rule(line: string, v6: bool, protocol: Option<string>, ports: seq<Range>,
                       to: Option<Range>, action: Action, source: Option<Range>)

  datatype Packet = Packet(v6: bool, protocol: string, port: nat, to: nat, source: nat)

  datatype Error = GuardMissing | EarlierRule

  predicate Matches(r: Rule, p: Packet) {
    && r.v6 == p.v6
    && r.action != Elsewise
    && (r.protocol.Some? ==> r.protocol.value == p.protocol)
    && (r.source.Some? ==> r.source.value.Has(p.source))
    && (r.to.Some? ==> r.to.value.Has(p.to))
    && exists i :: 0 <= i < |r.ports| && r.ports[i].Has(p.port)
  }

  predicate IsAccepting(r: Rule) { r.action == Allow || r.action == Limit }

  /** First match wins. */
  ghost function FirstMatch(rules: seq<Rule>, p: Packet): Option<Rule> {
    if rules == [] then None
    else if Matches(rules[0], p) then Some(rules[0])
    else FirstMatch(rules[1..], p)
  }

  /** Incoming packets that no rule matches are denied. */
  ghost predicate Accepts(rules: seq<Rule>, p: Packet) {
    FirstMatch(rules, p).Some? && IsAccepting(FirstMatch(rules, p).value)
  }

  ghost predicate IsFirstMatch(rules: seq<Rule>, p: Packet, k: nat) {
    k < |rules| && Matches(rules[k], p) && forall j :: 0 <= j < k ==> !Matches(rules[j], p)
  }

  lemma {:induction false} FirstMatchFound(rules: seq<Rule>, p: Packet)
    returns (k: nat)
    requires FirstMatch(rules, p).Some?
    ensures IsFirstMatch(rules, p, k) && FirstMatch(rules, p) == Some(rules[k])
  {
    if Matches(rules[0], p) {
      k := 0;
    } else {
      k := FirstMatchFound(rules[1..], p);
      k := k + 1;
    }
  }

  lemma {:induction false} FirstMatchAt(rules: seq<Rule>, p: Packet, k: nat)
    requires IsFirstMatch(rules, p, k)
    ensures FirstMatch(rules, p) == Some(rules[k])
  {
    if k != 0 {
      FirstMatchAt(rules[1..], p, k - 1);
    }
  }

  /** A rule of a kind that is not modelled decides about no packet. */
  lemma ElsewiseIsPassedOver(r: Rule, rest: seq<Rule>, p: Packet)
    requires r.action == Elsewise
    ensures FirstMatch([r] + rest, p) == FirstMatch(rest, p)
  {
    assert ([r] + rest)[1..] == rest;
  }

  // ---------------------------------------------------------------------------
  // What the verification reads in a line
  // ---------------------------------------------------------------------------

  /** A protocol and a port range that must not be open to everyone. */
  datatype Guard = Guard(protocol: string, ports: Range)

  const GuardMark := "# basaltwater-cachyos:guard"
  const AllowMark := "# basaltwater-cachyos:allow"

  function ShownRange(r: Range): string {
    if r.low == r.high then Decimal(r.low) else Decimal(r.low) + ":" + Decimal(r.high)
  }

  predicate BeginsWithWord(text: string, word: string) {
    At(text, 0, word) && |word| < |text| && IsSpace(text[|word|])
  }

  /** `\]\s+WORD\s` is found: the word stands after the number, or after a later bracket. */
  predicate ShowsWord(line: string, word: string) {
    || BeginsWithWord(line, word)
    || exists i :: 0 <= i < |line| - 1 && line[i] == ']' && IsSpace(line[i + 1])
         && BeginsWithWord(DropSpaces(line[i + 1..]), word)
  }

  predicate ShowsV6(line: string) { Contains(line, "(v6)") }

  predicate ShowsAccepting(line: string) { Contains(line, "ALLOW IN") || Contains(line, "LIMIT IN") }

  /** The comment is setup's allow comment or goes on after it. */
  predicate IsExempt(line: string) { Contains(line, AllowMark) }

  /** The comment is exactly setup's allow comment. */
  predicate IsManaged(line: string) {
    var text := TrimEnd(line);
    |text| >= |AllowMark| && At(text, |text| - |AllowMark|, AllowMark)
  }

  /** One part of the column, read as a port or a port range, is clear of the guard. A part
      that cannot be read is not, unless its beginning already lies above the guard. */
  predicate IsClear(part: string, ports: Range) {
    var ends := Split(part, ':');
    var first, last := Int(ends[0]), Int(ends[|ends| - 1]);
    first.Some? && (first.value > ports.high || (last.Some? && last.value < ports.low))
  }

  predicate AllClear(number: string, ports: Range) {
    var parts := Split(number, ',');
    forall i :: 0 <= i < |parts| ==> IsClear(parts[i], ports)
  }

  /** The destination column names another protocol after its first slash, or nothing but
      numbers that are clear of the guard. */
  predicate ReadsElsewhere(column: string, g: Guard) {
    var slash := AfterFirst(column, '/');
    (slash != "" && slash != g.protocol) || AllClear(Split(column, '/')[0], g.ports)
  }

  predicate IsGuardLine(r: Rule, g: Guard, v6: bool) {
    && ShowsV6(r.line) == v6 && ShowsWord(r.line, ShownRange(g.ports) + "/" + g.protocol)
    && Contains(r.line, "DENY IN") && Contains(r.line, GuardMark)
  }

  /** A line that the verification refuses to see before the guard. */
  predicate IsThreat(r: Rule, g: Guard, v6: bool) {
    && ShowsV6(r.line) == v6 && ShowsAccepting(r.line) && !IsExempt(r.line)
    && !ReadsElsewhere(Word(r.line), g)
  }

  // ---------------------------------------------------------------------------
  // The verification of rule order
  // ---------------------------------------------------------------------------

  ghost predicate GuardFirst(rules: seq<Rule>, g: Guard, v6: bool) {
    exists k: nat :: k < |rules| && IsGuardLine(rules[k], g, v6)
      && forall j :: 0 <= j < k ==> !IsThreat(rules[j], g, v6)
  }

  /** The inner loops of `verify_rule_order`, for one guard in one family. */
  method CheckGuard(rules: seq<Rule>, g: Guard, v6: bool) returns (r: Result<(), Error>)
    ensures r.Success? <==> GuardFirst(rules, g, v6)
    ensures r == Failure(GuardMissing) <==> HasNoGuard(rules, g, v6)
  {
    hide ShowsV6, ShowsAccepting, IsExempt, ReadsElsewhere, IsGuardLine;
    var guard := 0;
    while guard < |rules| && !IsGuardLine(rules[guard], g, v6)
      invariant guard <= |rules|
      invariant forall k :: 0 <= k < guard ==> !IsGuardLine(rules[k], g, v6)
    {
      guard := guard + 1;
    }
    if guard == |rules| {
      return Failure(GuardMissing);
    }
    for index := 0 to guard
      invariant forall j :: 0 <= j < index ==> !IsThreat(rules[j], g, v6)
    {
      var line := rules[index].line;
      if ShowsV6(line) != v6 || !ShowsAccepting(line) || IsExempt(line) {
        continue;
      }
      var overlap := ColumnOverlaps(Word(line), g);
      if overlap {
        assert IsThreat(rules[index], g, v6);
        return Failure(EarlierRule);
      }
    }
    return Success(());
  }

  /** The reading of the column. A part that is no number ends it with an overlap. */
  method ColumnOverlaps(column: string, g: Guard) returns (overlap: bool)
    ensures overlap <==> !ReadsElsewhere(column, g)
  {
    var slash := AfterFirst(column, '/');
    if slash != "" && slash != g.protocol {
      return false;
    }
    var parts := Split(Split(column, '/')[0], ',');
    for i := 0 to |parts|
      invariant forall k :: 0 <= k < i ==> IsClear(parts[k], g.ports)
    {
      var ends := Split(parts[i], ':');
      var first := Int(ends[0]);
      if first.None? {
        return true;
      }
      if first.value <= g.ports.high {
        var last := Int(ends[|ends| - 1]);
        if last.None? || last.value >= g.ports.low {
          return true;
        }
      }
    }
    return false;
  }

  ghost predicate AllGuardsFirst(rules: seq<Rule>, guarded: seq<Guard>) {
    forall i, v6 :: 0 <= i < |guarded| ==> GuardFirst(rules, guarded[i], v6)
  }

  ghost predicate MissesGuard(rules: seq<Rule>, guarded: seq<Guard>) {
    exists i, v6 :: 0 <= i < |guarded| && HasNoGuard(rules, guarded[i], v6)
  }

  ghost predicate HasNoGuard(rules: seq<Rule>, g: Guard, v6: bool) {
    forall k :: 0 <= k < |rules| ==> !IsGuardLine(rules[k], g, v6)
  }

  /** `verify_rule_order` */
  method VerifyRuleOrder(rules: seq<Rule>, guarded: seq<Guard>) returns (r: Result<(), Error>)
    ensures r.Success? <==> AllGuardsFirst(rules, guarded)
    ensures r == Failure(GuardMissing) ==> MissesGuard(rules, guarded)
  {
    hide IsGuardLine, GuardFirst;
    for index := 0 to |guarded|
      invariant forall i, v6 :: 0 <= i < index ==> GuardFirst(rules, guarded[i], v6)
    {
      r := CheckGuard(rules, guarded[index], false);
      if r.Failure? {
        return;
      }
      r := CheckGuard(rules, guarded[index], true);
      if r.Failure? {
        return;
      }
    }
    return Success(());
  }

  // ---------------------------------------------------------------------------
  // What an accepted order means for packets
  // ---------------------------------------------------------------------------

  /** An accepted list has, for every guard and in both families, a line that says so: the
      family, the ports and the protocol as a word, the action, and setup's guard comment. */
  lemma AcceptedHasGuardLine(rules: seq<Rule>, guarded: seq<Guard>, i: nat, v6: bool) returns (k: nat)
    requires AllGuardsFirst(rules, guarded) && i < |guarded|
    ensures k < |rules|
    ensures Contains(rules[k].line, "DENY IN") && Contains(rules[k].line, "# basaltwater-cachyos:guard")
    ensures Contains(rules[k].line, "(v6)") <==> v6
    ensures ShowsWord(rules[k].line, ShownRange(guarded[i].ports) + "/" + guarded[i].protocol)
  {
    assert GuardFirst(rules, guarded[i], v6);
    k :| k < |rules| && IsGuardLine(rules[k], guarded[i], v6);
    hide Contains, ShowsWord, ShownRange;
  }

  /** Nothing else is an opening: in front of the guard line, an accepting line of the family is
      in an accepted list only with setup's allow comment, or with a column that names something
      else. */
  lemma AcceptedInFront(rules: seq<Rule>, guarded: seq<Guard>, i: nat, v6: bool) returns (k: nat)
    requires AllGuardsFirst(rules, guarded) && i < |guarded|
    ensures k < |rules| && IsGuardLine(rules[k], guarded[i], v6)
    ensures forall j :: 0 <= j < k && (Contains(rules[j].line, "(v6)") <==> v6)
                        && (Contains(rules[j].line, "ALLOW IN") || Contains(rules[j].line, "LIMIT IN")) ==>
              Contains(rules[j].line, "# basaltwater-cachyos:allow") || ReadsElsewhere(Word(rules[j].line), guarded[i])
  {
    assert GuardFirst(rules, guarded[i], v6);
    k :| k < |rules| && IsGuardLine(rules[k], guarded[i], v6)
      && forall j :: 0 <= j < k ==> !IsThreat(rules[j], guarded[i], v6);
    hide Contains, ReadsElsewhere, IsGuardLine;
    forall j | 0 <= j < k && (Contains(rules[j].line, "(v6)") <==> v6)
               && (Contains(rules[j].line, "ALLOW IN") || Contains(rules[j].line, "LIMIT IN"))
      ensures Contains(rules[j].line, "# basaltwater-cachyos:allow")
              || ReadsElsewhere(Word(rules[j].line), guarded[i])
    {
      assert !IsThreat(rules[j], guarded[i], v6);
    }
  }

  predicate InGuard(g: Guard, p: Packet) { p.protocol == g.protocol && g.ports.Has(p.port) }

  /** What a guard command makes a rule do. */
  predicate DeniesAll(r: Rule, g: Guard, v6: bool) {
    && r.v6 == v6 && r.protocol == Some(g.protocol) && r.ports == [g.ports]
    && r.to.None? && r.action == Deny && r.source.None?
  }

  predicate Denies(r: Rule, p: Packet) { Matches(r, p) && !IsAccepting(r) }

  predicate IsPossible(range: Option<Range>) { range.Some? ==> range.value.low <= range.value.high }

  /** The rule is about packets to a guarded port, among others. */
  predicate Covers(r: Rule, g: Guard) {
    && (r.protocol.Some? ==> r.protocol.value == g.protocol)
    && IsPossible(r.source) && IsPossible(r.to)
    && exists i :: 0 <= i < |r.ports| && r.ports[i].Meets(g.ports)
  }

  lemma CoversExactly(r: Rule, g: Guard)
    requires r.action != Elsewise
    ensures Covers(r, g) <==> exists p: Packet :: p.v6 == r.v6 && InGuard(g, p) && Matches(r, p)
  {
    if Covers(r, g) {
      var i :| 0 <= i < |r.ports| && r.ports[i].Meets(g.ports);
      var port := if r.ports[i].low <= g.ports.low then g.ports.low else r.ports[i].low;
      var p := Packet(r.v6, g.protocol, port, if r.to.Some? then r.to.value.low else 0,
                      if r.source.Some? then r.source.value.low else 0);
      assert r.ports[i].Has(port) && InGuard(g, p) && Matches(r, p);
    }
    if p: Packet :| p.v6 == r.v6 && InGuard(g, p) && Matches(r, p) {
      CoversWhatItMatches(r, g, p);
    }
  }

  lemma CoversWhatItMatches(r: Rule, g: Guard, p: Packet)
    requires InGuard(g, p) && Matches(r, p)
    ensures Covers(r, g)
  {
    var i :| 0 <= i < |r.ports| && r.ports[i].Has(p.port);
    assert r.ports[i].Meets(g.ports);
  }

  /** A rule that opens a guarded port, is not one of setup's allow rules, and yet is passed
      over: its text shows the other family or no acceptance, its comment only begins like
      setup's, or its column reads as something else. */
  predicate IsStray(r: Rule, g: Guard) {
    && IsAccepting(r) && Covers(r, g) && !IsManaged(r.line)
    && (|| ShowsV6(r.line) != r.v6 || !ShowsAccepting(r.line) || IsExempt(r.line)
        || ReadsElsewhere(Word(r.line), g))
  }

  /** Some rule that is not one of setup's allow rules lets the packet in. */
  ghost predicate EntersUnmanaged(rules: seq<Rule>, p: Packet) {
    Accepts(rules, p) && !IsManaged(FirstMatch(rules, p).value.line)
  }

  /** The first `k` rules show no threat, and then comes a line that reads as the guard. */
  predicate IsShownGuard(rules: seq<Rule>, g: Guard, v6: bool, k: nat) {
    && k < |rules| && IsGuardLine(rules[k], g, v6)
    && forall j :: 0 <= j < k ==> !IsThreat(rules[j], g, v6)
  }

  /** Rule `j` may open a guarded port: it is stray and stands before the line that reads as the
      guard, or it is somebody's accepting rule and that line does not deny the packet. The
      verification does not read from where the guard denies, nor what else the rule says. */
  predicate IsOpening(rules: seq<Rule>, g: Guard, p: Packet, k: nat, j: nat)
    requires k < |rules| && j < |rules|
  {
    if j < k then IsStray(rules[j], g)
    else IsAccepting(rules[j]) && !IsManaged(rules[j].line) && !Denies(rules[k], p)
  }

  /** In an accepted order, the packets to guarded ports that enter by somebody else's rule are
      exactly those that come first to a stray rule before the guard, or to an accepting rule
      behind a guard line that does not deny them. */
  lemma OpenedExactly(rules: seq<Rule>, g: Guard, p: Packet, k: nat)
    requires IsShownGuard(rules, g, p.v6, k) && InGuard(g, p)
    ensures EntersUnmanaged(rules, p)
       <==> exists j: nat :: IsFirstMatch(rules, p, j) && IsOpening(rules, g, p, k, j)
  {
    hide IsManaged, ShowsV6, ShowsAccepting, IsExempt, ReadsElsewhere, IsGuardLine;
    if EntersUnmanaged(rules, p) {
      var i := FirstMatchFound(rules, p);
      CoversWhatItMatches(rules[i], g, p);
      assert IsOpening(rules, g, p, k, i);
    }
    if j: nat :| IsFirstMatch(rules, p, j) && IsOpening(rules, g, p, k, j) {
      FirstMatchAt(rules, p, j);
    }
  }

  /** Acceptance means protection of every packet to a guarded port, if and only if each stray
      rule before the guard is overruled by the rules before it, and no accepting rule comes
      first for a packet that the guard line does not deny. */
  lemma AcceptedOrderProtects(rules: seq<Rule>, g: Guard, v6: bool, k: nat)
    requires IsShownGuard(rules, g, v6, k)
    ensures (forall p: Packet :: p.v6 == v6 && InGuard(g, p) ==> !EntersUnmanaged(rules, p))
       <==> (forall j: nat, p: Packet :: p.v6 == v6 && InGuard(g, p) && IsFirstMatch(rules, p, j)
               ==> !IsOpening(rules, g, p, k, j))
  {
    hide IsOpening, EntersUnmanaged, IsGuardLine, IsThreat;
    forall p: Packet | p.v6 == v6 && InGuard(g, p)
      ensures EntersUnmanaged(rules, p)
         <==> exists j: nat :: IsFirstMatch(rules, p, j) && IsOpening(rules, g, p, k, j)
    {
      OpenedExactly(rules, g, p, k);
    }
  }

  /** With a guard line that denies what it shows, only stray rules are left. */
  lemma TrueGuardLeavesStrays(rules: seq<Rule>, g: Guard, p: Packet, k: nat, j: nat)
    requires IsShownGuard(rules, g, p.v6, k) && DeniesAll(rules[k], g, p.v6) && InGuard(g, p)
    requires IsFirstMatch(rules, p, j)
    ensures IsOpening(rules, g, p, k, j) <==> j < k && IsStray(rules[j], g)
  {
    hide IsGuardLine, IsThreat, IsStray, IsManaged;
    assert rules[k].ports[0].Has(p.port) && Denies(rules[k], p);
  }

  // ---------------------------------------------------------------------------
  // Which lines are stray
  // ---------------------------------------------------------------------------

  function ShownPorts(ports: seq<Range>): string {
    if ports == [] then ""
    else if |ports| == 1 then ShownRange(ports[0])
    else ShownRange(ports[0]) + "," + ShownPorts(ports[1..])
  }

  /** The line shows family, action and ports, and its comment does not begin like setup's. */
  predicate IsPlain(r: Rule) {
    && ShowsV6(r.line) == r.v6 && ShowsPorts(r) && (IsAccepting(r) ==> ShowsAccepting(r.line))
    && !IsExempt(r.line)
  }

  /** The column shows the ports, or that they are any, and the protocol if there is one. */
  predicate ShowsPorts(r: Rule) {
    var suffix := if r.protocol.Some? then "/" + r.protocol.value else "";
    || (r.ports != [] && Word(r.line) == ShownPorts(r.ports) + suffix)
    || Word(r.line) == "Anywhere" + suffix
  }

  lemma DecimalIsPlain(n: nat)
    ensures ':' !in Decimal(n) && ',' !in Decimal(n) && '/' !in Decimal(n) && '(' !in Decimal(n)
  {
    var numeral := Decimal(n);
    assert forall i :: 0 <= i < |numeral| ==> IsDigit(numeral[i]);
    hide Decimal;
  }

  lemma ShownRangeParts(r: Range)
    ensures var ends := Split(ShownRange(r), ':');
            Int(ends[0]) == Some(r.low) && Int(ends[|ends| - 1]) == Some(r.high)
    ensures ',' !in ShownRange(r) && '/' !in ShownRange(r) && '(' !in ShownRange(r)
  {
    DecimalIsPlain(r.low);
    DecimalIsPlain(r.high);
    DecimalReadsBack(r.low);
    DecimalReadsBack(r.high);
    hide Decimal, Int, Split;
    SplitFirst(Decimal(r.low), ':', Decimal(r.high));
    SplitFirst(Decimal(r.high), ':', "");
  }

  lemma ShownRangeIsRead(shown: Range, ports: Range)
    ensures IsClear(ShownRange(shown), ports) <==> shown.low > ports.high || shown.high < ports.low
    ensures AllClear(ShownRange(shown), ports) <==> IsClear(ShownRange(shown), ports)
  {
    ShownRangeParts(shown);
    hide ShownRange, Split, Int;
    ClearAlone(ShownRange(shown), ports);
  }

  lemma ClearAlone(part: string, ports: Range)
    requires ',' !in part
    ensures AllClear(part, ports) <==> IsClear(part, ports)
  {
    SplitFirst(part, ',', "");
    hide Split, IsClear;
    assert Split(part, ',')[0] == part;
  }

  predicate AllApart(shown: seq<Range>, ports: Range) {
    forall i :: 0 <= i < |shown| ==> shown[i].low > ports.high || shown[i].high < ports.low
  }

  lemma ApartParts(shown: seq<Range>, ports: Range)
    requires shown != []
    ensures AllApart(shown, ports)
       <==> (shown[0].low > ports.high || shown[0].high < ports.low) && AllApart(shown[1..], ports)
  {
    var rest := shown[1..];
    assert forall i :: 0 <= i < |rest| ==> rest[i] == shown[i + 1];
    assert AllApart(rest, ports) ==> forall i :: 1 <= i < |shown| ==> shown[i] == rest[i - 1];
  }

  /** Ports as they are shown are read as the ports they are. */
  lemma {:induction false} ShownPortsAreRead(shown: seq<Range>, ports: Range)
    requires shown != []
    ensures '/' !in ShownPorts(shown)
    ensures AllClear(ShownPorts(shown), ports) <==> AllApart(shown, ports)
  {
    var first, rest := ShownRange(shown[0]), ShownPorts(shown[1..]);
    ShownRangeParts(shown[0]);
    ShownRangeIsRead(shown[0], ports);
    ApartParts(shown, ports);
    if |shown| > 1 {
      assert ShownPorts(shown) == first + "," + rest;
      hide ShownRange, Split, Int, IsClear, AllClear, ShownPorts, AllApart;
      ShownPortsAreRead(shown[1..], ports);
      ClearParts(first, rest, ports);
    } else {
      assert AllApart(shown[1..], ports);
    }
  }

  lemma ClearParts(first: string, rest: string, ports: Range)
    requires ',' !in first
    ensures AllClear(first + "," + rest, ports) <==> AllClear(first, ports) && AllClear(rest, ports)
  {
    SplitFirst(first, ',', rest);
    assert [','] == ",";
    ClearAlone(first, ports);
    hide IsClear, Split;
    var parts, others := Split(first + "," + rest, ','), Split(rest, ',');
    assert parts[0] == first && forall i :: 0 <= i < |others| ==> parts[i + 1] == others[i];
  }

  lemma ColumnParts(base: string, suffix: string)
    requires '/' !in base
    ensures Split(base, '/')[0] == Split(base + "/" + suffix, '/')[0] == base
    ensures AfterFirst(base, '/') == "" && AfterFirst(base + "/" + suffix, '/') == suffix
  {
    SplitFirst(base, '/', suffix);
    AfterFirstOf(base, '/', suffix);
  }

  lemma UnreadableIsNotClear(number: string, ports: Range)
    requires ',' !in number && ':' !in number && Int(number).None?
    ensures !AllClear(number, ports)
  {
    SplitFirst(number, ':', "");
    ClearAlone(number, ports);
    hide Split, Int;
  }

  lemma AnywhereIsNotClear(ports: Range)
    ensures !AllClear("Anywhere", ports)
  {
    UnreadableIsNotClear("Anywhere", ports);
  }

  /** A rule that shows its family, its action and its ports is never passed over, unless
      its comment begins like setup's. */
  lemma PlainRulesAreNotStray(r: Rule, g: Guard)
    requires IsPlain(r)
    ensures !IsStray(r, g)
  {
    hide ShowsV6, ShowsAccepting, IsExempt, IsManaged, AllClear, Split, ShownPorts, Word;
    if IsStray(r, g) {
      var base :| '/' !in base && !AllClear(base, g.ports)
        && Word(r.line) == base + if r.protocol.Some? then "/" + r.protocol.value else "" by {
        if Word(r.line) == "Anywhere" + if r.protocol.Some? then "/" + r.protocol.value else "" {
          AnywhereIsNotClear(g.ports);
        } else {
          ShownPortsAreRead(r.ports, g.ports);
        }
      }
      assert base + "" == base && forall x :: base + ("/" + x) == base + "/" + x;
      ColumnParts(base, if r.protocol.Some? then r.protocol.value else "");
    }
  }

  /** So an accepted list, in which everybody's accepting rules are plain and the lines that
      read as guards are guards, protects every packet to every guarded port. */
  lemma PlainListIsProtected(rules: seq<Rule>, guarded: seq<Guard>, i: nat, p: Packet)
    requires AllGuardsFirst(rules, guarded) && i < |guarded| && InGuard(guarded[i], p)
    requires forall r :: r in rules && IsAccepting(r) && !IsManaged(r.line) ==> IsPlain(r)
    requires forall r :: r in rules && IsGuardLine(r, guarded[i], p.v6) ==> DeniesAll(r, guarded[i], p.v6)
    ensures !EntersUnmanaged(rules, p)
  {
    var g := guarded[i];
    hide IsGuardLine, IsThreat, IsPlain, IsManaged, EntersUnmanaged;
    assert GuardFirst(rules, g, p.v6);
    var k: nat :| k < |rules| && IsGuardLine(rules[k], g, p.v6)
      && forall j :: 0 <= j < k ==> !IsThreat(rules[j], g, p.v6);
    OpenedExactly(rules, g, p, k);
    forall j: nat | IsFirstMatch(rules, p, j) ensures !IsOpening(rules, g, p, k, j) {
      TrueGuardLeavesStrays(rules, g, p, k, j);
      if j < k && IsStray(rules[j], g) {
        assert IsPlain(rules[j]);
        PlainRulesAreNotStray(rules[j], g);
      }
    }
  }

  // ---------------------------------------------------------------------------
  // Every stray rule opens a guarded port of some accepted list
  // ---------------------------------------------------------------------------

  /** The status line of a guard, as a guard command makes it. */
  function GuardLine(g: Guard, v6: bool): string {
    ShownRange(g.ports) + "/" + g.protocol + (if v6 then " (v6) " else " ") + "DENY IN"
      + (if v6 then " Anywhere (v6) " else " Anywhere ") + GuardMark
  }

  lemma GuardLineParts(word: string, family: string, verb: string, source: string, comment: string)
    requires family != "" && IsSpace(family[0])
    ensures var line := word + family + verb + source + comment;
            && ShowsWord(line, word) && Contains(line, verb) && Contains(line, comment)
            && (Contains(word + family, "(v6)") ==> ShowsV6(line))
  {
    var line := word + family + verb + source + comment;
    assert BeginsWithWord(line, word);
    ContainsMiddle(word + family + verb + source, comment, "");
    assert line == line + "" == word + family + verb + (source + comment);
    ContainsMiddle(word + family, verb, source + comment);
    if Contains(word + family, "(v6)") {
      var i :| 0 <= i <= |word + family| && At(word + family, i, "(v6)");
      assert At(line, i, "(v6)");
    }
  }

  lemma GuardFamilyIsShown(word: string, v6: bool)
    requires '(' !in word
    ensures if v6 then Contains(word + " (v6) ", "(v6)")
            else !ShowsV6(word + " " + "DENY IN" + " Anywhere " + GuardMark)
  {
    if v6 {
      assert word + " (v6) " == word + " " + "(v6)" + " ";
      ContainsMiddle(word + " ", "(v6)", " ");
    } else {
      NoBracketNoV6(word + " " + "DENY IN" + " Anywhere " + GuardMark);
    }
  }

  lemma NoBracketNoV6(line: string)
    requires '(' !in line
    ensures !ShowsV6(line)
  {
    if ShowsV6(line) {
      ContainsFirst(line, "(v6)");
    }
  }

  lemma LastOfPart(s: string, i: nat, part: string)
    requires At(s, i, part) && i + |part| == |s| && part != ""
    ensures s[|s| - 1] == part[|part| - 1]
  {
    assert s[i..i + |part|][|part| - 1] == s[|s| - 1];
  }

  lemma NotManagedByEnd(line: string)
    requires line != "" && !IsSpace(line[|line| - 1]) && line[|line| - 1] != 'w'
    ensures !IsManaged(line)
  {
    if IsManaged(line) {
      LastOfPart(line, |line| - |AllowMark|, AllowMark);
    }
  }

  function GuardRule(g: Guard, v6: bool): Rule {
    Rule(GuardLine(g, v6), v6, Some(g.protocol), [g.ports], None, Deny, None)
  }

  lemma GuardIsShown(g: Guard, v6: bool)
    requires '(' !in g.protocol
    ensures IsGuardLine(GuardRule(g, v6), g, v6) && DeniesAll(GuardRule(g, v6), g, v6)
    ensures !IsManaged(GuardLine(g, v6))
  {
    var word := ShownRange(g.ports) + "/" + g.protocol;
    ShownRangeParts(g.ports);
    assert '(' !in word;
    hide ShownRange;
    GuardFamilyIsShown(word, v6);
    GuardLineParts(word, if v6 then " (v6) " else " ", "DENY IN", if v6 then " Anywhere (v6) " else " Anywhere ",
                   GuardMark);
    NotManagedByEnd(GuardLine(g, v6));
  }

  /** Between the guards of the other family and its own, a stray rule is accepted and lets
      every packet to a guarded port in that it covers. */
  lemma StrayIsAccepted(stray: Rule, g: Guard, p: Packet)
    requires IsStray(stray, g) && '(' !in g.protocol
    requires InGuard(g, p) && Matches(stray, p)
    ensures var rules := [GuardRule(g, !stray.v6), stray, GuardRule(g, stray.v6)];
            AllGuardsFirst(rules, [g]) && EntersUnmanaged(rules, p)
  {
    var rules := [GuardRule(g, !stray.v6), stray, GuardRule(g, stray.v6)];
    GuardIsShown(g, true);
    GuardIsShown(g, false);
    hide IsGuardLine, IsManaged, GuardLine;
    assert IsGuardLine(rules[0], g, !stray.v6) && IsGuardLine(rules[2], g, stray.v6);
    assert ShowsV6(rules[0].line) == !stray.v6;
    FirstMatchAt(rules, p, 1);
  }

  // ---------------------------------------------------------------------------
  // Open lines, written out
  // ---------------------------------------------------------------------------

  /** A status line that shows its ports, its protocol, its family, and that it lets in. */
  function OpenLine(ports: seq<Range>, protocol: string, v6: bool, verb: string, from: string): string {
    ShownPorts(ports) + "/" + protocol + " " + ((if v6 then "(v6) " else "") + (verb + from))
  }

  lemma {:induction false} ShownPortsArePlain(ports: seq<Range>)
    ensures forall c :: c in ShownPorts(ports) ==> IsDigit(c) || c == ',' || c == ':'
  {
    if ports != [] {
      DecimalIsPlain(ports[0].low);
      DecimalIsPlain(ports[0].high);
      assert forall c :: c in ShownRange(ports[0]) ==> IsDigit(c) || c == ':';
      hide ShownRange;
      ShownPortsArePlain(ports[1..]);
    }
  }

  predicate IsShownWord(word: string) {
    forall c :: c in word ==> !IsSpace(c) && c != '(' && c != '#'
  }

  lemma ShownWord(ports: seq<Range>, protocol: string)
    requires IsShownWord(protocol)
    ensures IsShownWord(ShownPorts(ports) + "/" + protocol)
  {
    ShownPortsArePlain(ports);
    hide ShownPorts;
  }

  /** What such a line contains. */
  lemma OpenLineIsShown(word: string, v6: bool, verb: string, from: string)
    requires IsShownWord(word) && (verb == "ALLOW IN" || verb == "LIMIT IN")
    requires '#' !in from && (!v6 ==> '(' !in from)
    ensures var line := word + " " + ((if v6 then "(v6) " else "") + (verb + from));
            Word(line) == word && ShowsAccepting(line) && ShowsV6(line) == v6 && !IsExempt(line)
  {
    assert '#' !in verb && '(' !in verb;
    LineIsShown(word, if v6 then "(v6) " else "", verb, from);
    hide Word, ShowsAccepting, IsExempt;
    FamilyIsShown(word, v6, verb + from);
  }

  lemma LineIsShown(word: string, family: string, verb: string, from: string)
    requires IsShownWord(word) && (verb == "ALLOW IN" || verb == "LIMIT IN")
    requires '#' !in family && '#' !in verb && '#' !in from
    ensures var line := word + " " + (family + (verb + from));
            Word(line) == word && ShowsAccepting(line) && !IsExempt(line)
  {
    var line := word + " " + (family + (verb + from));
    assert '#' !in line;
    NoMarkInside(line);
    hide IsExempt, IsSpace;
    assert forall i :: 0 <= i < |word| ==> word[i] in word;
    WordBefore(word, family + (verb + from));
    hide Word, ShowsAccepting;
    VerbIsShown(word + " " + family, verb, from);
    assert line == word + " " + family + verb + from;
  }

  lemma VerbIsShown(front: string, verb: string, from: string)
    requires verb == "ALLOW IN" || verb == "LIMIT IN"
    ensures ShowsAccepting(front + verb + from)
  {
    ContainsMiddle(front, verb, from);
  }

  lemma NoMarkInside(line: string)
    requires '#' !in line
    ensures !IsExempt(line)
  {
    if IsExempt(line) {
      ContainsFirst(line, AllowMark);
    }
  }

  lemma FamilyIsShown(word: string, v6: bool, rest: string)
    requires '(' !in word && (!v6 ==> '(' !in rest)
    ensures ShowsV6(word + " " + ((if v6 then "(v6) " else "") + rest)) == v6
  {
    if v6 {
      ContainsMiddle(word + " ", "(v6)", " " + rest);
      assert word + " " + ("(v6) " + rest) == word + " " + "(v6)" + (" " + rest);
    } else {
      NoBracketNoV6(word + " " + ("" + rest));
    }
  }

  /** Every line that shows ports meeting the guard, its protocol, and ALLOW IN or LIMIT IN is a
      threat to the guard of its family, wherever it lets in from. */
  lemma OpenLineIsThreat(r: Rule, ports: seq<Range>, g: Guard, v6: bool, verb: string, from: string, n: nat)
    requires r.line == OpenLine(ports, g.protocol, v6, verb, from)
    requires n < |ports| && ports[n].low <= g.ports.high && g.ports.low <= ports[n].high
    requires IsShownWord(g.protocol) && (verb == "ALLOW IN" || verb == "LIMIT IN")
    requires '#' !in from && (!v6 ==> '(' !in from)
    ensures IsThreat(r, g, v6)
  {
    var word := ShownPorts(ports) + "/" + g.protocol;
    ShownWord(ports, g.protocol);
    ShownPortsAreRead(ports, g.ports);
    assert !AllApart(ports, g.ports);
    hide ShownPorts, AllClear, AllApart, Word, ShowsV6, ShowsAccepting, IsExempt, IsShownWord;
    OpenLineIsShown(word, v6, verb, from);
    ColumnParts(ShownPorts(ports), g.protocol);
  }

  /** So a list with such a line before the first guard of the family is not accepted. */
  lemma OpenLineIsRefused(rules: seq<Rule>, guarded: seq<Guard>, i: nat, j: nat, ports: seq<Range>, v6: bool,
                          verb: string, from: string, n: nat)
    requires i < |guarded| && j < |rules|
    requires forall k :: 0 <= k <= j ==> !IsGuardLine(rules[k], guarded[i], v6)
    requires rules[j].line == OpenLine(ports, guarded[i].protocol, v6, verb, from)
    requires n < |ports| && ports[n].low <= guarded[i].ports.high && guarded[i].ports.low <= ports[n].high
    requires IsShownWord(guarded[i].protocol) && (verb == "ALLOW IN" || verb == "LIMIT IN")
    requires '#' !in from && (!v6 ==> '(' !in from)
    ensures !AllGuardsFirst(rules, guarded)
  {
    OpenLineIsThreat(rules[j], ports, guarded[i], v6, verb, from, n);
    hide IsGuardLine, IsThreat, OpenLine;
    assert !GuardFirst(rules, guarded[i], v6);
  }

  /** And the rules that show themselves so are plain. */
  lemma OpenLineIsPlain(r: Rule, v6: bool, verb: string, from: string)
    requires r.ports != [] && r.protocol.Some? && r.v6 == v6
    requires r.line == OpenLine(r.ports, r.protocol.value, v6, verb, from)
    requires IsShownWord(r.protocol.value) && (verb == "ALLOW IN" || verb == "LIMIT IN")
    requires '#' !in from && (!v6 ==> '(' !in from)
    ensures IsPlain(r)
  {
    hide ShownPorts, Word, ShowsV6, ShowsAccepting, IsExempt, IsShownWord;
    var word := ShownPorts(r.ports) + "/" + r.protocol.value;
    ShownWord(r.ports, r.protocol.value);
    OpenLineIsShown(word, v6, verb, from);
    assert word == ShownPorts(r.ports) + ("/" + r.protocol.value);
  }

  /** The allow rule for everybody. */
  function OpenRule(g: Guard, v6: bool): Rule {
    Rule(OpenLine([g.ports], g.protocol, v6, "ALLOW IN", " Anywhere"), v6, Some(g.protocol), [g.ports], None, Allow,
         None)
  }

  lemma OpenRuleIsForeign(g: Guard, v6: bool)
    ensures !IsManaged(OpenRule(g, v6).line)
  {
    var line := OpenRule(g, v6).line;
    assert line[|line| - 1] == " Anywhere"[8] == 'e';
    hide OpenLine;
    NotManagedByEnd(line);
  }

  lemma OpenRuleIsPlain(g: Guard, v6: bool)
    requires IsShownWord(g.protocol)
    ensures IsPlain(OpenRule(g, v6))
  {
    hide OpenLine, IsPlain, IsShownWord;
    OpenLineIsPlain(OpenRule(g, v6), v6, "ALLOW IN", " Anywhere");
  }

  /** Likewise every line that reads as a guard but does not deny some packet to the port: it
      makes the verification accept an allow rule behind it, although the guard comes later. */
  lemma NarrowGuardIsAccepted(narrow: Rule, g: Guard, p: Packet)
    requires IsGuardLine(narrow, g, p.v6) && !IsManaged(narrow.line) && '(' !in g.protocol
    requires InGuard(g, p) && !Denies(narrow, p)
    ensures var rules := [GuardRule(g, !p.v6), narrow, OpenRule(g, p.v6), GuardRule(g, p.v6)];
            AllGuardsFirst(rules, [g]) && EntersUnmanaged(rules, p)
  {
    hide IsManaged, IsGuardLine, GuardLine, OpenLine;
    var rules := [GuardRule(g, !p.v6), narrow, OpenRule(g, p.v6), GuardRule(g, p.v6)];
    GuardIsShown(g, !p.v6);
    OpenRuleIsForeign(g, p.v6);
    OpenRuleMatches(g, p);
    TwoGuardsFirst(rules, g, p.v6);
    assert !Matches(rules[0], p);
    hide AllGuardsFirst;
    FirstMatchAt(rules, p, if Matches(narrow, p) then 1 else 2);
  }

  lemma OpenRuleMatches(g: Guard, p: Packet)
    requires InGuard(g, p)
    ensures Matches(OpenRule(g, p.v6), p) && IsAccepting(OpenRule(g, p.v6))
  {
    hide OpenLine;
    assert OpenRule(g, p.v6).ports[0].Has(p.port);
  }

  lemma TwoGuardsFirst(rules: seq<Rule>, g: Guard, v6: bool)
    requires |rules| >= 2 && IsGuardLine(rules[0], g, !v6) && IsGuardLine(rules[1], g, v6)
    ensures AllGuardsFirst(rules, [g])
  {
    assert !IsThreat(rules[0], g, v6);
    hide IsGuardLine, IsThreat;
  }

  const Service := Guard("tcp", Range(3773, 3773))
  const AnyPort := Range(0, 65535)

  ghost predicate Opens(stray: Rule, p: Packet) {
    var rules := [GuardRule(Service, !stray.v6), stray, GuardRule(Service, stray.v6)];
    IsStray(stray, Service) && AllGuardsFirst(rules, [Service]) && EntersUnmanaged(rules, p)
  }

  /** A column with something else than the protocol after its first slash is passed over. */
  lemma SlashReadsElsewhere(base: string, slash: string, rest: string, g: Guard)
    requires '/' !in base && slash != "" && slash != g.protocol
    requires forall c :: c in base + slash ==> !IsSpace(c)
    ensures ReadsElsewhere(Word(base + "/" + slash + " " + rest), g)
  {
    WordBefore(base + "/" + slash, rest);
    ColumnParts(base, slash);
  }

  lemma AddressIsClear(first: string, middle: string, last: string, ports: Range)
    requires ':' !in first && ':' !in last && ',' !in first + ":" + middle + ":" + last
    requires Int(first).Some? && Int(last).Some? && (Int(first).value > ports.high || Int(last).value < ports.low)
    ensures AllClear(first + ":" + middle + ":" + last, ports)
  {
    var part := first + ":" + middle + ":" + last;
    hide Int, Split;
    assert part == first + [':'] + (middle + ":" + last);
    SplitFirst(first, ':', middle + ":" + last);
    SplitLast(first + ":" + middle, ':', last);
    ClearAlone(part, ports);
  }

  /** So is one with a colon between its first and its last number, if these, read as the ends
      of a range of ports, are clear of the guard. */
  lemma AddressReadsElsewhere(first: nat, middle: string, last: nat, rest: string, g: Guard)
    requires first > g.ports.high || last < g.ports.low
    requires forall c :: c in middle ==> !IsSpace(c) && c != '/' && c != ','
    ensures ReadsElsewhere(Word(Decimal(first) + ":" + middle + ":" + Decimal(last) + " " + rest), g)
  {
    var head, tail := Decimal(first), Decimal(last);
    var column := head + ":" + middle + ":" + tail;
    DecimalIsPlain(first);
    DecimalIsPlain(last);
    DecimalReadsBack(first);
    DecimalReadsBack(last);
    assert forall c :: c in column ==> !IsSpace(c) && c != '/' && c != ',';
    hide Decimal, Int, Split, IsSpace, AllClear;
    AddressIsClear(head, middle, tail, g.ports);
    WordBefore(column, rest);
    ColumnParts(column, "");
  }

  /** A subnet of this machine's addresses: the prefix length is read as a protocol. */
  function SubnetLine(): string { "10.0.0.0" + "/" + "8" + " " + "ALLOW IN Anywhere" }

  /** An address, 2001:db8::1: its first and last group are read as a range of ports. */
  function AddressLine(): string {
    Decimal(2001) + ":" + "db8:" + ":" + Decimal(1) + " " + "3773/tcp ALLOW IN Anywhere (v6)"
  }

  /** A comment that goes on after setup's own. */
  function LongerCommentLine(): string { "3773/tcp ALLOW IN Anywhere " + AllowMark + "-old" }

  /** A source and a destination of version 6, so that no "(v6)" is shown. */
  function HiddenFamilyLine(): string { "fe80::1 3773/tcp ALLOW IN fe80::/10" }

  /** A guard for one source only. */
  function NarrowGuardLine(): string {
    ShownRange(Service.ports) + "/" + "tcp" + " " + "DENY IN" + " 10.0.0.1 " + GuardMark
  }

  lemma FourTextIsShown(word: string, source: string, mark: string)
    requires '(' !in word && '(' !in source && '(' !in mark
    requires mark != "" && !IsSpace(mark[|mark| - 1]) && mark[|mark| - 1] != 'w'
    ensures var line := word + " " + "DENY IN" + source + mark;
            && ShowsWord(line, word) && !ShowsV6(line) && Contains(line, "DENY IN") && Contains(line, mark)
            && !IsManaged(line)
  {
    var line := word + " " + "DENY IN" + source + mark;
    GuardLineParts(word, " ", "DENY IN", source, mark);
    hide ShowsWord, Contains, ShowsV6, IsManaged;
    assert line[|line| - 1] == mark[|mark| - 1];
    NoBracketNoV6(line);
    NotManagedByEnd(line);
  }

  lemma NarrowGuardIsShown(r: Rule)
    requires r.line == NarrowGuardLine()
    ensures IsGuardLine(r, Service, false) && !IsManaged(r.line)
  {
    hide ShowsWord, Contains, ShowsV6, IsManaged;
    ShownRangeParts(Service.ports);
    hide ShownRange;
    FourTextIsShown(ShownRange(Service.ports) + "/" + "tcp", " 10.0.0.1 ", GuardMark);
  }

  lemma SubnetIsPassedOver()
    ensures ReadsElsewhere(Word(SubnetLine()), Service) && !IsManaged(SubnetLine())
  {
    SlashReadsElsewhere("10.0.0.0", "8", "ALLOW IN Anywhere", Service);
    NotManagedByEnd(SubnetLine());
  }

  lemma AddressIsPassedOver()
    ensures ReadsElsewhere(Word(AddressLine()), Service) && !IsManaged(AddressLine())
  {
    AddressReadsElsewhere(2001, "db8:", 1, "3773/tcp ALLOW IN Anywhere (v6)", Service);
    NotManagedByEnd(AddressLine());
  }

  lemma LongerCommentIsPassedOver()
    ensures IsExempt(LongerCommentLine()) && !IsManaged(LongerCommentLine())
  {
    ContainsMiddle("3773/tcp ALLOW IN Anywhere ", AllowMark, "-old");
    NotManagedByEnd(LongerCommentLine());
  }

  lemma HiddenFamilyIsPassedOver()
    ensures !ShowsV6(HiddenFamilyLine()) && !IsManaged(HiddenFamilyLine())
  {
    NoBracketNoV6(HiddenFamilyLine());
    NotManagedByEnd(HiddenFamilyLine());
  }

  /** Each of the four makes an accepted list that lets a packet from anywhere, or in the
      last case from a foreign source, reach the service. */
  lemma OverlookedRules(source: nat, to: nat)
    ensures Opens(Rule(SubnetLine(), false, None, [AnyPort], Some(Range(to, to)), Allow, None),
                  Packet(false, "tcp", 3773, to, source))
    ensures Opens(Rule(AddressLine(), true, Some("tcp"), [Service.ports], Some(Range(to, to)), Allow, None),
                  Packet(true, "tcp", 3773, to, source))
    ensures Opens(Rule(LongerCommentLine(), false, Some("tcp"), [Service.ports], None, Allow, None),
                  Packet(false, "tcp", 3773, to, source))
    ensures Opens(Rule(HiddenFamilyLine(), true, Some("tcp"), [Service.ports], Some(Range(to, to)), Allow,
                       Some(Range(source, source))),
                  Packet(true, "tcp", 3773, to, source))
  {
    SubnetIsPassedOver();
    AddressIsPassedOver();
    LongerCommentIsPassedOver();
    HiddenFamilyIsPassedOver();
    hide SubnetLine, AddressLine, LongerCommentLine, HiddenFamilyLine;
    OpensService(SubnetLine(), false, None, AnyPort, Some(Range(to, to)), None, to, source);
    OpensService(AddressLine(), true, Some("tcp"), Service.ports, Some(Range(to, to)), None, to, source);
    OpensService(LongerCommentLine(), false, Some("tcp"), Service.ports, None, None, to, source);
    OpensService(HiddenFamilyLine(), true, Some("tcp"), Service.ports, Some(Range(to, to)),
                 Some(Range(source, source)), to, source);
  }

  /** A fifth list is accepted for a guard that denies one source only: every other source
      reaches the service through the allow rule behind it, although no rule is stray. */
  lemma NarrowGuardIsOverlooked(denied: nat, source: nat, to: nat)
    requires source != denied
    ensures var narrow := Rule(NarrowGuardLine(), false, Some("tcp"), [Service.ports], None, Deny,
                               Some(Range(denied, denied)));
            var rules := [GuardRule(Service, true), narrow, OpenRule(Service, false), GuardRule(Service, false)];
            AllGuardsFirst(rules, [Service]) && EntersUnmanaged(rules, Packet(false, "tcp", 3773, to, source))
  {
    var narrow := Rule(NarrowGuardLine(), false, Some("tcp"), [Service.ports], None, Deny,
                       Some(Range(denied, denied)));
    NarrowGuardIsShown(narrow);
    hide IsGuardLine, IsManaged, NarrowGuardLine;
    NarrowGuardIsAccepted(narrow, Service, Packet(false, "tcp", 3773, to, source));
  }

  lemma OpensService(line: string, v6: bool, protocol: Option<string>, ports: Range, toRange: Option<Range>,
                     sources: Option<Range>, to: nat, source: nat)
    requires !IsManaged(line)
    requires ShowsV6(line) != v6 || IsExempt(line) || ReadsElsewhere(Word(line), Service)
    requires (protocol.Some? ==> protocol.value == "tcp") && ports.Has(3773)
    requires (toRange.Some? ==> toRange.value.Has(to)) && (sources.Some? ==> sources.value.Has(source))
    ensures Opens(Rule(line, v6, protocol, [ports], toRange, Allow, sources),
                  Packet(v6, "tcp", 3773, to, source))
  {
    hide IsManaged, ShowsV6, IsExempt, ReadsElsewhere, Word;
    var stray := Rule(line, v6, protocol, [ports], toRange, Allow, sources);
    var p := Packet(v6, "tcp", 3773, to, source);
    assert stray.ports[0].Has(p.port);
    CoversWhatItMatches(stray, Service, p);
    StrayIsAccepted(stray, Service, p);
  }

  // ---------------------------------------------------------------------------
  // The rewrite
  // ---------------------------------------------------------------------------

  /** UFW calls rules equivalent that match the same packets, whatever they do with them. */
  predicate Equivalent(a: Rule, b: Rule) {
    && a.v6 == b.v6 && a.protocol == b.protocol && a.ports == b.ports && a.to == b.to && a.source == b.source
  }

  ghost predicate HasEquivalent(rules: seq<Rule>, r: Rule) {
    exists i :: 0 <= i < |rules| && Equivalent(rules[i], r)
  }

  function Without(rules: seq<Rule>, drop: Rule -> bool): seq<Rule> {
    if rules == [] then []
    else if drop(rules[0]) then Without(rules[1..], drop)
    else [rules[0]] + Without(rules[1..], drop)
  }

  function IsManagedAllow(): Rule -> bool { (r: Rule) => IsManaged(r.line) }

  /** The allow rules that say the same as `a`. */
  function IsSameAllow(a: Rule): Rule -> bool { (r: Rule) => Equivalent(r, a) && r.action == Allow }

  function Replaced(rules: seq<Rule>, r: Rule): seq<Rule> {
    seq(|rules|, i requires 0 <= i < |rules| => if Equivalent(rules[i], r) then r else rules[i])
  }

  ghost function WithGuard(rules: seq<Rule>, g: Rule): seq<Rule> {
    if HasEquivalent(rules, g) then Replaced(rules, g) else [g] + rules
  }

  ghost function Prepended(rules: seq<Rule>, r: Rule): seq<Rule> {
    if HasEquivalent(rules, r) then rules else [r] + rules
  }

  ghost function WithAllow(rules: seq<Rule>, a: Rule): seq<Rule> {
    if HasEquivalent(rules, a) then Prepended(Without(rules, IsSameAllow(a)), a) else [a] + rules
  }

  ghost function WithGuards(rules: seq<Rule>, guards: seq<Rule>): seq<Rule>
    decreases |guards|
  {
    if guards == [] then rules else WithGuards(WithGuard(rules, guards[0]), guards[1..])
  }

  ghost function WithAllows(rules: seq<Rule>, allows: seq<Rule>): seq<Rule>
    decreases |allows|
  {
    if allows == [] then rules else WithAllows(WithAllow(rules, allows[0]), allows[1..])
  }

  /** The rule list after a run: guards in, old managed allows out, new allows in front. */
  ghost function Rebuilt(rules: seq<Rule>, guards: seq<Rule>, allows: seq<Rule>): seq<Rule> {
    WithAllows(Cleared(rules, guards), allows)
  }

  /** The rule list when the selected rules are about to be added. */
  ghost function Cleared(rules: seq<Rule>, guards: seq<Rule>): seq<Rule> {
    Without(WithGuards(rules, guards), IsManagedAllow())
  }

  /** Increasing numbers, from one, of the managed allows among the first `cut` rules. */
  ghost predicate NumbersManaged(numbers: seq<nat>, rules: seq<Rule>, cut: nat) {
    && cut <= |rules|
    && (forall k :: 0 <= k < |numbers| ==> 1 <= numbers[k] <= cut)
    && (forall k, l :: 0 <= k < l < |numbers| ==> numbers[k] < numbers[l])
    && (forall i :: 0 <= i < cut ==> (IsManaged(rules[i].line) <==> i + 1 in numbers))
  }

  /** Without the highest number, the others number the rules below it. */
  lemma LastManaged(numbers: seq<nat>, rules: seq<Rule>, cut: nat)
    requires NumbersManaged(numbers, rules, cut) && numbers != []
    ensures var last := numbers[|numbers| - 1];
            && 1 <= last <= cut && IsManaged(rules[last - 1].line)
            && (forall i :: last <= i < cut ==> !IsManaged(rules[i].line))
            && NumbersManaged(numbers[..|numbers| - 1], rules, last - 1)
  {
    var last, rest := numbers[|numbers| - 1], numbers[..|numbers| - 1];
    assert numbers == rest + [last] && last in numbers;
    assert forall k :: 0 <= k < |rest| ==> rest[k] == numbers[k] < last;
  }

  lemma NothingClearedYet(all: seq<Rule>)
    ensures all == all[..|all|] + Without(all[|all|..], IsManagedAllow())
  {}

  lemma AllCleared(all: seq<Rule>, cut: nat)
    requires NumbersManaged([], all, cut)
    ensures all[..cut] + Without(all[cut..], IsManagedAllow()) == Without(all, IsManagedAllow())
  {
    forall i | 0 <= i < cut ensures !IsManaged(all[i].line) {
    }
    WithoutNone(all[..cut], all[cut..]);
    assert all == all[..cut] + all[cut..];
  }

  /** The rule list that `ufw` keeps. The order between the two families means nothing. */
  class Ufw {
    var rules: seq<Rule>

    constructor (initial: seq<Rule>)
      ensures rules == initial
    {
      rules := initial;
    }

    method FindEquivalent(r: Rule) returns (found: bool)
      ensures found == HasEquivalent(rules, r)
    {
      for i := 0 to |rules|
        invariant forall k :: 0 <= k < i ==> !Equivalent(rules[k], r)
      {
        if Equivalent(rules[i], r) {
          return true;
        }
      }
      return false;
    }

    /** `ufw prepend`: skips a rule when an equivalent one exists. */
    method Prepend(r: Rule) returns (skipped: bool)
      modifies this
      ensures skipped == HasEquivalent(old(rules), r) && rules == Prepended(old(rules), r)
    {
      skipped := FindEquivalent(r);
      if !skipped {
        rules := [r] + rules;
      }
    }

    /** `ufw deny` without a position: an equivalent rule takes the new action in place. */
    method DenyInPlace(r: Rule)
      requires HasEquivalent(rules, r)
      modifies this
      ensures rules == Replaced(old(rules), r)
    {
      rules := Replaced(rules, r);
    }

    /** `ufw --force delete NUMBER`, counting from one. */
    method DeleteNumber(number: nat)
      requires 1 <= number <= |rules|
      modifies this
      ensures rules == old(rules)[..number - 1] + old(rules)[number..]
    {
      rules := rules[..number - 1] + rules[number..];
    }

    /** `ufw --force delete allow ...` */
    method DeleteAllow(a: Rule)
      modifies this
      ensures rules == Without(old(rules), IsSameAllow(a))
    {
      rules := Without(rules, IsSameAllow(a));
    }

    /** The numbers of the managed allows in the status. */
    method CollectObsolete() returns (obsolete: seq<nat>)
      ensures NumbersManaged(obsolete, rules, |rules|)
    {
      obsolete := [];
      for index := 0 to |rules|
        invariant NumbersManaged(obsolete, rules, index)
      {
        if IsManaged(rules[index].line) {
          obsolete := obsolete + [index + 1];
        }
      }
    }

    /** The numbers of the managed allows, highest first, each deleted. */
    method DeleteObsolete()
      modifies this
      ensures rules == Without(old(rules), IsManagedAllow())
    {
      hide NumbersManaged, Without;
      var obsolete := CollectObsolete();
      ghost var all, cut: nat := rules, |rules|;
      NothingClearedYet(all);
      var left: nat := |obsolete|;
      assert obsolete[..left] == obsolete;
      while 0 < left
        invariant left <= |obsolete| && cut <= |all| && NumbersManaged(obsolete[..left], all, cut)
        invariant rules == all[..cut] + Without(all[cut..], IsManagedAllow())
      {
        var number := obsolete[left - 1];
        LastManaged(obsolete[..left], all, cut);
        assert obsolete[..left][..left - 1] == obsolete[..left - 1];
        WithoutLeading(all, number, cut);
        DeleteNumber(number);
        left := left - 1;
        cut := number - 1;
      }
      AllCleared(all, cut);
    }

    /** The rule commands of `_configure_firewall`, in order. */
    method Rebuild(guards: seq<Rule>, allows: seq<Rule>)
      modifies this
      ensures rules == Rebuilt(old(rules), guards, allows)
    {
      for i := 0 to |guards|
        invariant WithGuards(rules, guards[i..]) == WithGuards(old(rules), guards)
      {
        assert guards[i..][1..] == guards[i + 1..];
        var skipped := Prepend(guards[i]);
        if skipped {
          DenyInPlace(guards[i]);
        }
      }
      DeleteObsolete();
      ghost var cleared := rules;
      for i := 0 to |allows|
        invariant WithAllows(rules, allows[i..]) == WithAllows(cleared, allows)
      {
        assert allows[i..][1..] == allows[i + 1..];
        var skipped := Prepend(allows[i]);
        if skipped {
          DeleteAllow(allows[i]);
          skipped := Prepend(allows[i]);
        }
      }
    }
  }

  /** One guard command writes a rule in each family. */
  function GuardRules(guarded: seq<Guard>): seq<Rule> {
    if guarded == [] then []
    else [GuardRule(guarded[0], false), GuardRule(guarded[0], true)] + GuardRules(guarded[1..])
  }

  lemma {:induction false} WithoutNone(kept: seq<Rule>, rest: seq<Rule>)
    requires forall i :: 0 <= i < |kept| ==> !IsManaged(kept[i].line)
    ensures Without(kept + rest, IsManagedAllow()) == kept + Without(rest, IsManagedAllow())
  {
    hide IsManaged;
    if kept == [] {
      assert kept + rest == rest;
    } else {
      WithoutNone(kept[1..], rest);
      WithoutFirst(kept[0], kept[1..] + rest);
      hide Without;
      assert kept + rest == [kept[0]] + (kept[1..] + rest);
      assert kept + Without(rest, IsManagedAllow()) == [kept[0]] + (kept[1..] + Without(rest, IsManagedAllow()));
    }
  }

  lemma WithoutFirst(r: Rule, rest: seq<Rule>)
    ensures Without([r] + rest, IsManagedAllow())
         == (if IsManaged(r.line) then [] else [r]) + Without(rest, IsManagedAllow())
  {
    assert ([r] + rest)[1..] == rest;
    hide IsManaged;
  }

  /** Deleting the highest managed number below a cleared tail moves the cut down to it. */
  lemma WithoutLeading(all: seq<Rule>, number: nat, cut: nat)
    requires 1 <= number <= cut <= |all| && IsManaged(all[number - 1].line)
    requires forall i :: number <= i < cut ==> !IsManaged(all[i].line)
    ensures Without(all[number - 1..], IsManagedAllow())
         == all[number..cut] + Without(all[cut..], IsManagedAllow())
    ensures var now := all[..cut] + Without(all[cut..], IsManagedAllow());
            now[..number - 1] + now[number..] == all[..number - 1] + Without(all[number - 1..], IsManagedAllow())
  {
    hide Without, IsManaged;
    var tail := Without(all[cut..], IsManagedAllow());
    WithoutFirst(all[number - 1], all[number..cut] + all[cut..]);
    WithoutNone(all[number..cut], all[cut..]);
    assert all[number - 1..] == [all[number - 1]] + (all[number..cut] + all[cut..]);
    assert Without(all[number - 1..], IsManagedAllow()) == all[number..cut] + tail;
    var now := all[..cut] + tail;
    assert now[number..] == all[number..cut] + tail && now[..number - 1] == all[..number - 1];
  }

  // ---------------------------------------------------------------------------
  // What the rewrite keeps and achieves
  // ---------------------------------------------------------------------------

  /** Not a rule of setup, and not one that says the same as a guard or a selected allow. */
  ghost predicate IsUntouched(r: Rule, guards: seq<Rule>, allows: seq<Rule>) {
    && !IsManaged(r.line)
    && (forall i :: 0 <= i < |guards| ==> !Equivalent(r, guards[i]))
    && (forall i :: 0 <= i < |allows| ==> !Equivalent(r, allows[i]))
  }

  ghost function TouchedBy(guards: seq<Rule>, allows: seq<Rule>): Rule -> bool {
    (r: Rule) => !IsUntouched(r, guards, allows)
  }

  lemma {:induction false} WithoutReplaced(rules: seq<Rule>, g: Rule, drop: Rule -> bool)
    requires forall r :: r == g || Equivalent(r, g) ==> drop(r)
    ensures Without(Replaced(rules, g), drop) == Without(rules, drop)
  {
    if rules != [] {
      assert Replaced(rules, g)[1..] == Replaced(rules[1..], g);
      WithoutReplaced(rules[1..], g, drop);
    }
  }

  lemma {:induction false} WithoutTwice(rules: seq<Rule>, first: Rule -> bool, drop: Rule -> bool)
    requires forall r :: first(r) ==> drop(r)
    ensures Without(Without(rules, first), drop) == Without(rules, drop)
  {
    if rules != [] {
      WithoutTwice(rules[1..], first, drop);
      assert ([rules[0]] + Without(rules[1..], first))[1..] == Without(rules[1..], first);
    }
  }

  lemma WithoutCons(r: Rule, rules: seq<Rule>, drop: Rule -> bool)
    requires drop(r)
    ensures Without([r] + rules, drop) == Without(rules, drop)
  {
    assert ([r] + rules)[1..] == rules;
  }

  lemma {:induction false} GuardsKeepOthers(rules: seq<Rule>, guards: seq<Rule>, drop: Rule -> bool)
    requires forall i, r :: 0 <= i < |guards| && (r == guards[i] || Equivalent(r, guards[i])) ==> drop(r)
    ensures Without(WithGuards(rules, guards), drop) == Without(rules, drop)
    decreases |guards|
  {
    if guards != [] {
      var g := guards[0];
      GuardsKeepOthers(WithGuard(rules, g), guards[1..], drop);
      if HasEquivalent(rules, g) {
        WithoutReplaced(rules, g, drop);
      } else {
        WithoutCons(g, rules, drop);
      }
    }
  }

  lemma {:induction false} AllowsKeepOthers(rules: seq<Rule>, allows: seq<Rule>, drop: Rule -> bool)
    requires forall i, r :: 0 <= i < |allows| && (r == allows[i] || Equivalent(r, allows[i])) ==> drop(r)
    ensures Without(WithAllows(rules, allows), drop) == Without(rules, drop)
    decreases |allows|
  {
    if allows != [] {
      var a := allows[0];
      AllowsKeepOthers(WithAllow(rules, a), allows[1..], drop);
      if HasEquivalent(rules, a) {
        WithoutTwice(rules, IsSameAllow(a), drop);
        WithoutCons(a, Without(rules, IsSameAllow(a)), drop);
      } else {
        WithoutCons(a, rules, drop);
      }
    }
  }

  predicate AreGuards(guards: seq<Rule>) {
    forall i :: 0 <= i < |guards| ==>
      !IsManaged(guards[i].line) && guards[i].action == Deny && guards[i].source.None?
  }

  predicate AreAllows(allows: seq<Rule>) {
    forall i :: 0 <= i < |allows| ==>
      IsManaged(allows[i].line) && allows[i].action == Allow && allows[i].source.Some?
  }

  /** Every rule that setup has nothing to say about survives, in its order. */
  lemma OtherRulesKept(rules: seq<Rule>, guards: seq<Rule>, allows: seq<Rule>)
    requires AreGuards(guards) && AreAllows(allows)
    ensures Without(Rebuilt(rules, guards, allows), TouchedBy(guards, allows))
         == Without(rules, TouchedBy(guards, allows))
  {
    var drop := TouchedBy(guards, allows);
    forall i, r | 0 <= i < |guards| && (r == guards[i] || Equivalent(r, guards[i])) ensures drop(r) {
      assert !IsUntouched(r, guards, allows);
    }
    forall i, r | 0 <= i < |allows| && (r == allows[i] || Equivalent(r, allows[i])) ensures drop(r) {
      assert !IsUntouched(r, guards, allows);
    }
    var guarded := WithGuards(rules, guards);
    var cleared := Cleared(rules, guards);
    AllowsKeepOthers(cleared, allows, drop);
    WithoutTwice(guarded, IsManagedAllow(), drop);
    GuardsKeepOthers(rules, guards, drop);
  }

  lemma {:induction false} WithoutMembers(rules: seq<Rule>, drop: Rule -> bool, r: Rule)
    ensures r in Without(rules, drop) <==> r in rules && !drop(r)
  {
    if rules != [] {
      WithoutMembers(rules[1..], drop, r);
      assert rules == [rules[0]] + rules[1..];
    }
  }

  /** After the rewrite the managed allows are the selected ones and no others. */
  lemma {:induction false} OnlySelectedAllows(rules: seq<Rule>, allows: seq<Rule>, r: Rule)
    requires AreAllows(allows)
    requires r in WithAllows(rules, allows) && IsManaged(r.line)
    ensures r in allows || r in rules
    decreases |allows|
  {
    if allows != [] {
      var a := allows[0];
      OnlySelectedAllows(WithAllow(rules, a), allows[1..], r);
      WithoutMembers(rules, IsSameAllow(a), r);
    }
  }

  /** The rule list opens with rules of `allows` only, up to and including `a`. */
  ghost predicate InFront(rules: seq<Rule>, allows: seq<Rule>, a: Rule) {
    exists i :: 0 <= i < |rules| && rules[i] == a && forall j :: 0 <= j <= i ==> rules[j] in allows
  }

  /** Nothing but an allow rule says the same as the selected allow. */
  ghost predicate IsAdoptable(rules: seq<Rule>, a: Rule) {
    forall r :: r in rules && Equivalent(r, a) ==> r.action == Allow
  }

  lemma {:induction false} WithoutHasNo(rules: seq<Rule>, a: Rule)
    requires forall r :: r in rules && Equivalent(r, a) ==> r.action == Allow
    ensures !HasEquivalent(Without(rules, IsSameAllow(a)), a)
  {
    var left := Without(rules, IsSameAllow(a));
    forall i | 0 <= i < |left| ensures !Equivalent(left[i], a) {
      WithoutMembers(rules, IsSameAllow(a), left[i]);
    }
  }

  lemma AllowComesFirst(rules: seq<Rule>, a: Rule)
    requires forall r :: r in rules && Equivalent(r, a) ==> r.action == Allow
    ensures WithAllow(rules, a) == [a] + Without(rules, IsSameAllow(a))
  {
    WithoutHasNo(rules, a);
    if !HasEquivalent(rules, a) {
      NothingDropped(rules, a);
    }
  }

  lemma {:induction false} NothingDropped(rules: seq<Rule>, a: Rule)
    requires !HasEquivalent(rules, a)
    ensures Without(rules, IsSameAllow(a)) == rules
  {
    if rules != [] {
      forall i | 0 <= i < |rules[1..]| ensures !Equivalent(rules[1..][i], a) {
        assert rules[1..][i] == rules[i + 1];
      }
      NothingDropped(rules[1..], a);
    }
  }

  lemma {:induction false} WithoutKeepsFront(rules: seq<Rule>, drop: Rule -> bool, allows: seq<Rule>, a: Rule)
    requires InFront(rules, allows, a) && !drop(a)
    ensures InFront(Without(rules, drop), allows, a)
  {
    var i :| 0 <= i < |rules| && rules[i] == a && forall j :: 0 <= j <= i ==> rules[j] in allows;
    var left := Without(rules[1..], drop);
    if rules[0] == a {
      assert ([a] + left)[0] == a;
    } else {
      assert rules[1..][i - 1] == a && forall j :: 0 <= j <= i - 1 ==> rules[1..][j] in allows;
      WithoutKeepsFront(rules[1..], drop, allows, a);
      if !drop(rules[0]) {
        FrontCons(rules[0], left, allows, a);
      }
    }
  }

  lemma FrontCons(first: Rule, rules: seq<Rule>, allows: seq<Rule>, a: Rule)
    requires first in allows && InFront(rules, allows, a)
    ensures InFront([first] + rules, allows, a)
  {
    var i :| 0 <= i < |rules| && rules[i] == a && forall j :: 0 <= j <= i ==> rules[j] in allows;
    assert ([first] + rules)[i + 1] == a;
  }

  /** Adding a selected allow keeps another one that is in front there. */
  lemma FrontStays(rules: seq<Rule>, first: Rule, selected: seq<Rule>, a: Rule)
    requires InFront(rules, selected, a) && first in selected && !Equivalent(a, first)
    ensures InFront(WithAllow(rules, first), selected, a)
  {
    var left := Without(rules, IsSameAllow(first));
    WithoutKeepsFront(rules, IsSameAllow(first), selected, a);
    FrontCons(first, left, selected, a);
    FrontCons(first, rules, selected, a);
  }

  lemma AdoptableStays(rules: seq<Rule>, first: Rule, a: Rule)
    requires IsAdoptable(rules, a) && first.action == Allow
    ensures IsAdoptable(WithAllow(rules, first), a)
  {
    forall r | r in WithAllow(rules, first) && Equivalent(r, a) ensures r.action == Allow {
      WithoutMembers(rules, IsSameAllow(first), r);
    }
  }

  /** An adoptable allow ends up in front, with selected allows before it only. */
  lemma {:induction false} AllowsStayInFront(rules: seq<Rule>, allows: seq<Rule>, selected: seq<Rule>, a: Rule)
    requires AreAllows(allows) && forall i :: 0 <= i < |allows| ==> allows[i] in selected
    requires forall i, j :: 0 <= i < j < |allows| ==> !Equivalent(allows[i], allows[j])
    requires (a in allows && IsAdoptable(rules, a))
         || (InFront(rules, selected, a) && forall i :: 0 <= i < |allows| ==> !Equivalent(a, allows[i]))
    ensures InFront(WithAllows(rules, allows), selected, a)
    decreases |allows|
  {
    hide IsManaged;
    if allows != [] {
      var first, next := allows[0], WithAllow(rules, allows[0]);
      if a == first {
        AllowComesFirst(rules, first);
        assert next[0] == a;
      } else if a in allows[1..] {
        AdoptableStays(rules, first, a);
      } else {
        FrontStays(rules, first, selected, a);
      }
      AllowsStayInFront(next, allows[1..], selected, a);
    }
  }

  lemma {:induction false} GuardStays(rules: seq<Rule>, guards: seq<Rule>, g: Rule)
    requires forall i :: 0 <= i < |guards| ==> g == guards[i] || !Equivalent(g, guards[i])
    requires g in rules || g in guards
    ensures g in WithGuards(rules, guards)
    decreases |guards|
  {
    if guards != [] {
      var next := WithGuard(rules, guards[0]);
      if g == guards[0] {
        if HasEquivalent(rules, g) {
          var i :| 0 <= i < |rules| && Equivalent(rules[i], g);
          assert next[i] == g;
        } else {
          assert next[0] == g;
        }
      } else if g in rules {
        var i :| 0 <= i < |rules| && rules[i] == g;
        assert HasEquivalent(rules, guards[0]) ==> next[i] == g;
      }
      GuardStays(next, guards[1..], g);
    }
  }

  lemma {:induction false} DenyStays(rules: seq<Rule>, allows: seq<Rule>, g: Rule)
    requires g in rules && g.action == Deny
    ensures g in WithAllows(rules, allows)
    decreases |allows|
  {
    if allows != [] {
      WithoutMembers(rules, IsSameAllow(allows[0]), g);
      DenyStays(WithAllow(rules, allows[0]), allows[1..], g);
    }
  }

  ghost predicate AreShowable(guarded: seq<Guard>) {
    forall i :: 0 <= i < |guarded| ==> '(' !in guarded[i].protocol
  }

  lemma {:induction false} GuardRulesAre(guarded: seq<Guard>, r: Rule)
    requires r in GuardRules(guarded)
    ensures exists i, v6 :: 0 <= i < |guarded| && r == GuardRule(guarded[i], v6)
  {
    if r != GuardRule(guarded[0], false) && r != GuardRule(guarded[0], true) {
      GuardRulesAre(guarded[1..], r);
      var i, v6 :| 0 <= i < |guarded[1..]| && r == GuardRule(guarded[1..][i], v6);
      assert guarded[1..][i] == guarded[i + 1];
    }
  }

  lemma {:induction false} GuardRulesHave(guarded: seq<Guard>, i: nat, v6: bool)
    requires i < |guarded|
    ensures GuardRule(guarded[i], v6) in GuardRules(guarded)
  {
    if i > 0 {
      GuardRulesHave(guarded[1..], i - 1, v6);
    }
  }

  /** Every guard is there in the end, in both families. */
  lemma GuardsPresent(rules: seq<Rule>, guarded: seq<Guard>, allows: seq<Rule>, i: nat, v6: bool)
    requires AreShowable(guarded) && i < |guarded|
    ensures GuardRule(guarded[i], v6) in Rebuilt(rules, GuardRules(guarded), allows)
    ensures IsGuardLine(GuardRule(guarded[i], v6), guarded[i], v6)
  {
    var g, guards := GuardRule(guarded[i], v6), GuardRules(guarded);
    GuardIsShown(guarded[i], v6);
    GuardRulesHave(guarded, i, v6);
    forall n | 0 <= n < |guards| ensures g == guards[n] || !Equivalent(g, guards[n]) {
      GuardRulesAre(guarded, guards[n]);
    }
    hide IsManaged, IsGuardLine, GuardLine;
    GuardStays(rules, guards, g);
    WithoutMembers(WithGuards(rules, guards), IsManagedAllow(), g);
    DenyStays(Cleared(rules, guards), allows, g);
  }

  lemma GuardNotMissed(rules: seq<Rule>, guarded: seq<Guard>, allows: seq<Rule>, i: nat, v6: bool)
    requires AreShowable(guarded) && i < |guarded|
    ensures var after := Rebuilt(rules, GuardRules(guarded), allows);
            exists k: nat :: k < |after| && IsGuardLine(after[k], guarded[i], v6)
  {
    GuardsPresent(rules, guarded, allows, i, v6);
  }

  /** `_configure_firewall`: the rewrite, and then the verification of what came of it. */
  method Configure(ufw: Ufw, guarded: seq<Guard>, allows: seq<Rule>) returns (r: Result<(), Error>)
    modifies ufw
    ensures ufw.rules == Rebuilt(old(ufw.rules), GuardRules(guarded), allows)
    ensures r.Success? <==> AllGuardsFirst(ufw.rules, guarded)
    ensures AreShowable(guarded) ==> r != Failure(GuardMissing)
  {
    ufw.Rebuild(GuardRules(guarded), allows);
    r := VerifyRuleOrder(ufw.rules, guarded);
    if AreShowable(guarded) && r == Failure(GuardMissing) {
      ghost var i, v6 :| 0 <= i < |guarded| && HasNoGuard(ufw.rules, guarded[i], v6);
      GuardNotMissed(old(ufw.rules), guarded, allows, i, v6);
    }
  }

  /** The outcome of a run that the verification accepts: the packets to a guarded port that
      are let in otherwise than by a selected rule, with its source and its port, are exactly
      those that come first to a stray rule, or to an accepting rule behind a guard line that
      does not deny them. */
  lemma OnlySelectedSourcesEnter(rules: seq<Rule>, guards: seq<Rule>, allows: seq<Rule>, g: Guard, p: Packet, k: nat)
    requires AreAllows(allows) && InGuard(g, p)
    requires IsShownGuard(Rebuilt(rules, guards, allows), g, p.v6, k)
    ensures var after := Rebuilt(rules, guards, allows);
            (Accepts(after, p) && FirstMatch(after, p).value !in allows
             <==> exists j: nat :: IsFirstMatch(after, p, j) && IsOpening(after, g, p, k, j))
  {
    var after := Rebuilt(rules, guards, allows);
    var cleared := Cleared(rules, guards);
    OpenedExactly(after, g, p, k);
    hide IsShownGuard, IsManaged, IsOpening;
    if Accepts(after, p) && FirstMatch(after, p).value !in allows {
      var i := FirstMatchFound(after, p);
      if IsManaged(after[i].line) {
        OnlySelectedAllows(cleared, allows, after[i]);
        WithoutMembers(WithGuards(rules, guards), IsManagedAllow(), after[i]);
      }
    }
  }

  /** A rule that is no allow rule is never displaced, and keeps an equivalent one out. */
  lemma {:induction false} KeptOutByOther(rules: seq<Rule>, allows: seq<Rule>, r: Rule, a: Rule)
    requires AreAllows(allows) && r in rules && Equivalent(r, a) && r.action != Allow
    requires a !in rules
    ensures r in WithAllows(rules, allows) && a !in WithAllows(rules, allows)
    decreases |allows|
  {
    hide IsManaged;
    if allows != [] {
      var first, next := allows[0], WithAllow(rules, allows[0]);
      var left := Without(rules, IsSameAllow(first));
      WithoutMembers(rules, IsSameAllow(first), r);
      WithoutMembers(rules, IsSameAllow(first), a);
      if first == a {
        var i :| 0 <= i < |rules| && rules[i] == r;
        var n :| 0 <= n < |left| && left[n] == r;
        assert HasEquivalent(rules, a) && HasEquivalent(left, a);
      }
      KeptOutByOther(next, allows[1..], r, a);
    }
  }

  /** A selected rule is in the list in the end if and only if nobody has a rule for the very
      same packets that is no allow rule; and then every packet it describes is let in. */
  lemma SelectedSourcesEnter(rules: seq<Rule>, guards: seq<Rule>, allows: seq<Rule>, a: Rule, p: Packet)
    requires AreAllows(allows) && a in allows
    requires forall i, j :: 0 <= i < j < |allows| ==> !Equivalent(allows[i], allows[j])
    ensures a in Rebuilt(rules, guards, allows) <==> IsAdoptable(Cleared(rules, guards), a)
    ensures IsAdoptable(Cleared(rules, guards), a) && Matches(a, p) ==> Accepts(Rebuilt(rules, guards, allows), p)
  {
    var after, cleared := Rebuilt(rules, guards, allows), Cleared(rules, guards);
    if IsAdoptable(cleared, a) {
      AllowsStayInFront(cleared, allows, allows, a);
      var i :| 0 <= i < |after| && after[i] == a && forall j :: 0 <= j <= i ==> after[j] in allows;
      if Matches(a, p) {
        SomeMatch(after, p, i);
        var k := FirstMatchFound(after, p);
      }
    } else {
      var r :| r in cleared && Equivalent(r, a) && r.action != Allow;
      WithoutMembers(WithGuards(rules, guards), IsManagedAllow(), a);
      KeptOutByOther(cleared, allows, r, a);
    }
  }

  /** It does happen: somebody denies the selected source on the port. The verification then
      accepts the outcome, in which the source is refused. */
  lemma DeniedSourceStaysOut(denied: Rule, a: Rule, p: Packet)
    requires AreAllows([a]) && Equivalent(denied, a) && denied.action == Deny && !IsManaged(denied.line)
    requires InGuard(Service, p) && Matches(a, p)
    ensures var after := Rebuilt([denied], GuardRules([Service]), [a]);
            AllGuardsFirst(after, [Service]) && !Accepts(after, p)
  {
    var four, six := GuardRule(Service, false), GuardRule(Service, true);
    GuardIsShown(Service, false);
    GuardIsShown(Service, true);
    hide IsManaged, IsGuardLine, GuardLine;
    assert GuardRules([Service]) == [four, six] by {
      assert [Service][1..] == [];
    }
    hide GuardRules, IsShownGuard;
    assert [a][0] == a && a.source.Some?;
    DeniedWithGuards(denied, four, six, a);
    hide Rebuilt;
    GuardsBothFirst([six, four, denied]);
    GuardDenies([six, four, denied], p);
  }

  lemma GuardDenies(rules: seq<Rule>, p: Packet)
    requires |rules| >= 2 && rules[0] == GuardRule(Service, true) && rules[1] == GuardRule(Service, false)
    requires InGuard(Service, p)
    ensures !Accepts(rules, p)
  {
    hide GuardLine;
    var k := if p.v6 then 0 else 1;
    assert rules[k].ports[0].Has(p.port) && Matches(rules[k], p);
    FirstMatchAt(rules, p, k);
  }

  /** Neither guard is a threat to the other. */
  lemma GuardsBothFirst(rules: seq<Rule>)
    requires |rules| >= 2 && rules[0] == GuardRule(Service, true) && rules[1] == GuardRule(Service, false)
    ensures AllGuardsFirst(rules, [Service])
  {
    GuardIsShown(Service, false);
    GuardIsShown(Service, true);
    hide IsGuardLine;
    TwoGuardsFirst(rules, Service, false);
  }

  lemma DeniedWithGuards(denied: Rule, four: Rule, six: Rule, a: Rule)
    requires !IsManaged(denied.line) && !IsManaged(four.line) && !IsManaged(six.line)
    requires Equivalent(denied, a) && denied.action == Deny && a.source.Some?
    requires four.source.None? && six.source.None? && !Equivalent(four, six)
    ensures Rebuilt([denied], [four, six], [a]) == [six, four, denied]
  {
    hide IsManaged;
    var one, all := [four] + [denied], [six] + ([four] + [denied]);
    assert !HasEquivalent([denied], four) && !HasEquivalent(one, six);
    assert [four, six][1..] == [six] && [six][1..] == [] && [a][1..] == [];
    assert WithGuards([denied], [four, six]) == WithGuards(one, [six]) == WithGuards(all, []) == all;
    assert all == all + [] && Without([], IsManagedAllow()) == [];
    WithoutNone(all, []);
    assert Cleared([denied], [four, six]) == all;
    assert Equivalent(all[2], a) && HasEquivalent(all, a);
    NoSameAllow(all, a);
    assert WithAllows(all, [a]) == WithAllows(WithAllow(all, a), []) == all == [six, four, denied];
  }

  lemma {:induction false} NoSameAllow(rules: seq<Rule>, a: Rule)
    requires forall r :: r in rules ==> !(Equivalent(r, a) && r.action == Allow)
    ensures Without(rules, IsSameAllow(a)) == rules
  {
    if rules != [] {
      NoSameAllow(rules[1..], a);
    }
  }

  lemma {:induction false} SomeMatch(rules: seq<Rule>, p: Packet, i: nat)
    requires i < |rules| && Matches(rules[i], p)
    ensures FirstMatch(rules, p).Some?
  {
    if i != 0 && !Matches(rules[0], p) {
      SomeMatch(rules[1..], p, i - 1);
    }
  }
}

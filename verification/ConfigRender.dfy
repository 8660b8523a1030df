// Rendering the configuration: placeholder passes, appended self-init text, residual check.

module ConfigRender {
  import opened Options
  import Strings
  import opened Substitution

  const HOSTNAME := "HOSTNAME"
  const POD_IP := "POD_IP"

  function Plain(name: string): string { "${" + name + "}" }

  function Escaped(name: string): string { "$" + Plain(name) }

  /** replacePlaceholders */
  function ReplacePlaceholders(content: string, hostname: string, podIP: string): string
  {
    var pass1 := ReplaceAll(content, Escaped(HOSTNAME), hostname);
    var pass2 := ReplaceAll(pass1, Plain(HOSTNAME), hostname);
    var pass3 := ReplaceAll(pass2, Escaped(POD_IP), podIP);
    ReplaceAll(pass3, Plain(POD_IP), podIP)
  }

  function Rules(hostname: string, podIP: string): seq<Rule>
  {
    [Rule(Escaped(HOSTNAME), hostname), Rule(Plain(HOSTNAME), hostname),
     Rule(Escaped(POD_IP), podIP), Rule(Plain(POD_IP), podIP)]
  }

  /** Values that share no character with a placeholder. */
  predicate PlainText(s: string)
  {
    s != "" && forall c :: c in s ==> c !in "${}_" && !('A' <= c <= 'Z')
  }

  /** The characters of lower-case host names and of lower-case IP literals. */
  predicate IsAddressChar(c: char)
  {
    'a' <= c <= 'z' || '0' <= c <= '9' || c in "-.:%"
  }

  lemma AddressesArePlainText(s: string)
    requires s != "" && forall c :: c in s ==> IsAddressChar(c)
    ensures PlainText(s)
  {}

  ghost predicate IsName(name: string)
  {
    name != "" && forall c :: c in name ==> c == '_' || 'A' <= c <= 'Z'
  }

  lemma PlaceholderChars(name: string, c: char)
    requires IsName(name) && c in Escaped(name)
    ensures c in "${}_" || 'A' <= c <= 'Z'
  {}

  lemma PlaceholderDisjoint(text: string, name: string)
    requires PlainText(text) && IsName(name)
    ensures Disjoint(text, Escaped(name)) && Disjoint(text, Plain(name))
  {
    forall c | c in text ensures c !in Escaped(name) {
      if c in Escaped(name) {
        PlaceholderChars(name, c);
      }
    }
    forall c | c in Plain(name) ensures c in Escaped(name) {
    }
  }

  lemma NoDollarInside(name: string, i: nat)
    requires IsName(name) && 0 < i < |Plain(name)|
    ensures Plain(name)[i] != '$'
  {
    assert 2 <= i < |name| + 2 ==> Plain(name)[i] == name[i - 2] && name[i - 2] in name;
  }

  /** A dollar sign occurs in a plain placeholder only in front. */
  lemma PlainHasNoneInside(name: string, p: string)
    requires IsName(name) && p != "" && p[0] == '$'
    ensures NoneInside(Plain(name), p)
  {
    var q := Plain(name);
    forall i | 0 < i < |q| ensures !(q[i..] <= p) && !(p <= q[i..]) {
      NoDollarInside(name, i);
      assert q[i..][0] == q[i];
    }
  }

  /** The second dollar sign of an escaped placeholder starts its own name only. */
  lemma EscapedHasNoneInside(name: string, other: string, p: string)
    requires IsName(name) && IsName(other) && name[0] != other[0] && p in {Plain(other), Escaped(other)}
    ensures NoneInside(Escaped(name), p)
  {
    var q := Escaped(name);
    assert p[0] == '$' && Plain(other)[2] == other[0];
    forall i | 0 < i < |q| ensures !(q[i..] <= p) && !(p <= q[i..]) {
      assert q[i..][0] == q[i] == Plain(name)[i - 1];
      if i > 1 {
        NoDollarInside(name, i - 1);
      } else {
        assert q[i..] == Plain(name) && Plain(name)[1] == '{' && Plain(name)[2] == name[0];
      }
    }
  }

  lemma Names()
    ensures IsName(HOSTNAME) && IsName(POD_IP) && HOSTNAME[0] != POD_IP[0]
  {}

  lemma RulesUsable(hostname: string, podIP: string)
    ensures Usable(Rules(hostname, podIP))
  {}

  /** No pass can see a placeholder that starts in, or runs into, an inserted value. */
  lemma RulesInert(hostname: string, podIP: string, name: string, n: nat)
    requires PlainText(hostname) && PlainText(podIP) && IsName(name) && n <= 4
    ensures Inert(Rules(hostname, podIP)[..n], Plain(name)) && Inert(Rules(hostname, podIP)[..n], Escaped(name))
  {
    PlaceholderDisjoint(hostname, name);
    PlaceholderDisjoint(podIP, name);
  }

  lemma NthHasNoneInside(hostname: string, podIP: string, n: nat, rule: Rule)
    requires n < 4 && rule in Rules(hostname, podIP)[..n]
    ensures NoneInside(Rules(hostname, podIP)[n].pattern, rule.pattern)
  {
    Names();
    if n == 2 {
      EscapedHasNoneInside(POD_IP, HOSTNAME, rule.pattern);
    } else {
      PlainHasNoneInside(if n == 1 then HOSTNAME else POD_IP, rule.pattern);
    }
  }

  lemma Pass(content: string, hostname: string, podIP: string, n: nat)
    requires PlainText(hostname) && PlainText(podIP) && n < 4
    ensures var rules := Rules(hostname, podIP);
      && Usable(rules[..n]) && Usable(rules[..n + 1])
      && ReplaceAll(Subst(content, rules[..n]), rules[n].pattern, rules[n].text) == Subst(content, rules[..n + 1])
  {
    var rules := Rules(hostname, podIP);
    RulesUsable(hostname, podIP);
    Names();
    RulesInert(hostname, podIP, if n < 2 then HOSTNAME else POD_IP, n);
    forall rule | rule in rules[..n] ensures NoneInside(rules[n].pattern, rule.pattern) {
      NthHasNoneInside(hostname, podIP, n, rule);
    }
    Fusion(content, rules[..n], rules[n].pattern, rules[n].text);
    assert rules[..n + 1] == rules[..n] + [rules[n]];
  }

  /**
   * The four passes are one simultaneous substitution, for every template, host name and
   * address that share no character with the placeholders.
   */
  lemma PassesAreSimultaneous(content: string, hostname: string, podIP: string)
    requires PlainText(hostname) && PlainText(podIP)
    ensures Usable(Rules(hostname, podIP))
    ensures ReplacePlaceholders(content, hostname, podIP) == Subst(content, Rules(hostname, podIP))
  {
    RulesUsable(hostname, podIP);
    FirstPasses(content, hostname, podIP, 4);
    assert Rules(hostname, podIP)[..4] == Rules(hostname, podIP);
    AllPasses(content, hostname, podIP);
  }

  /** The text after the first `n` passes. */
  ghost function AfterPasses(content: string, hostname: string, podIP: string, n: nat): string
    requires n <= 4
  {
    if n == 0 then content
    else
      var rule := Rules(hostname, podIP)[n - 1];
      ReplaceAll(AfterPasses(content, hostname, podIP, n - 1), rule.pattern, rule.text)
  }

  lemma AllPasses(content: string, hostname: string, podIP: string)
    ensures AfterPasses(content, hostname, podIP, 4) == ReplacePlaceholders(content, hostname, podIP)
  {
    var rules := Rules(hostname, podIP);
    assert rules[0] == Rule(Escaped(HOSTNAME), hostname) && rules[1] == Rule(Plain(HOSTNAME), hostname);
    assert rules[2] == Rule(Escaped(POD_IP), podIP) && rules[3] == Rule(Plain(POD_IP), podIP);
    assert AfterPasses(content, hostname, podIP, 0) == content;
    var pass1 := AfterPasses(content, hostname, podIP, 1);
    assert pass1 == ReplaceAll(content, Escaped(HOSTNAME), hostname);
    var pass2 := AfterPasses(content, hostname, podIP, 2);
    assert pass2 == ReplaceAll(pass1, Plain(HOSTNAME), hostname);
    var pass3 := AfterPasses(content, hostname, podIP, 3);
    assert pass3 == ReplaceAll(pass2, Escaped(POD_IP), podIP);
  }

  lemma {:induction false} FirstPasses(content: string, hostname: string, podIP: string, n: nat)
    requires PlainText(hostname) && PlainText(podIP) && n <= 4
    ensures Usable(Rules(hostname, podIP)[..n])
    ensures AfterPasses(content, hostname, podIP, n) == Subst(content, Rules(hostname, podIP)[..n])
    decreases n
  {
    if n == 0 {
      NoRules(content);
      assert Rules(hostname, podIP)[..0] == [];
    } else {
      FirstPasses(content, hostname, podIP, n - 1);
      Pass(content, hostname, podIP, n - 1);
    }
  }

  lemma {:induction false} NoRules(s: string)
    ensures Subst(s, []) == s
    decreases |s|
  {
    if s != "" {
      NoRules(s[1..]);
    }
  }

  lemma NoPlaceholderLeft(content: string, hostname: string, podIP: string, name: string)
    requires PlainText(hostname) && PlainText(podIP) && name in {HOSTNAME, POD_IP}
    ensures !Contains(ReplacePlaceholders(content, hostname, podIP), Plain(name))
  {
    Names();
    PassesAreSimultaneous(content, hostname, podIP);
    var rules := Rules(hostname, podIP);
    RulesInert(hostname, podIP, name, 4);
    assert rules[..4] == rules && (rules[1] in rules && rules[3] in rules);
    NoneLeft(content, rules, Plain(name));
  }

  // ----- renderConfig

  predicate IsBlank(s: string)
  {
    Strings.Trim(s) == ""
  }

  predicate HasSuffix(s: string, suffix: string)
  {
    |suffix| <= |s| && s[|s| - |suffix|..] == suffix
  }

  /** Reading the self-init file: a missing file reads as empty. */
  datatype SelfInit = NotConfigured | Unreadable | Content(text: string)

  datatype Outcome =
    | Rendered | BadArguments | NoPodIP | NoTemplate | NoSelfInit | NotWritten | HostnameLeft | PodIPLeft

  predicate Appends(hostname: string, selfInit: SelfInit)
  {
    selfInit.Content? && HasSuffix(hostname, "-0") && selfInit.text != ""
  }

  /** appendSelfInitConfig */
  function WithSelfInit(rendered: string, hostname: string, selfInit: SelfInit): string
  {
    if Appends(hostname, selfInit) then rendered + "\n\n" + selfInit.text else rendered
  }

  /** renderConfig; note that the text is written before it is checked. */
  method RenderConfig(templatePath: string, outputPath: string, hostname: string, podIP: Option<string>,
                      template: Option<string>, selfInit: SelfInit, writeFails: bool)
    returns (outcome: Outcome, written: Option<string>)
    ensures written.Some? <==>
      && !IsBlank(templatePath) && !IsBlank(outputPath) && !IsBlank(hostname) && podIP.Some? && template.Some?
      && !(selfInit.Unreadable? && HasSuffix(hostname, "-0")) && !writeFails
    ensures written.Some? ==>
      && podIP.Some? && template.Some?
      && written.value == WithSelfInit(ReplacePlaceholders(template.value, hostname, podIP.value), hostname, selfInit)
    ensures outcome in {Rendered, HostnameLeft, PodIPLeft} <==> written.Some?
    ensures written.Some? && PlainText(hostname) && PlainText(podIP.value) ==>
      && (outcome == Rendered <==>
            Appends(hostname, selfInit) ==>
              !Contains(selfInit.text, Plain(HOSTNAME)) && !Contains(selfInit.text, Plain(POD_IP)))
      && (outcome == Rendered ==>
            !Contains(written.value, Plain(HOSTNAME)) && !Contains(written.value, Plain(POD_IP)))
  {
    if IsBlank(templatePath) || IsBlank(outputPath) || IsBlank(hostname) {
      return BadArguments, None;
    }
    if podIP.None? {
      return NoPodIP, None;
    }
    if template.None? {
      return NoTemplate, None;
    }
    var rendered := ReplacePlaceholders(template.value, hostname, podIP.value);
    if !selfInit.NotConfigured? && HasSuffix(hostname, "-0") {
      if selfInit.Unreadable? {
        return NoSelfInit, None;
      }
      rendered := WithSelfInit(rendered, hostname, selfInit);
    }
    if writeFails {
      return NotWritten, None;
    }
    written := Some(rendered);
    if PlainText(hostname) && PlainText(podIP.value) {
      ResidualIsFromSelfInit(template.value, hostname, podIP.value, selfInit, HOSTNAME);
      ResidualIsFromSelfInit(template.value, hostname, podIP.value, selfInit, POD_IP);
    }
    if Contains(rendered, Plain(HOSTNAME)) {
      return HostnameLeft, written;
    }
    if Contains(rendered, Plain(POD_IP)) {
      return PodIPLeft, written;
    }
    return Rendered, written;
  }

  /** The residual check fails exactly because of the appended text. */
  lemma ResidualIsFromSelfInit(template: string, hostname: string, podIP: string, selfInit: SelfInit, name: string)
    requires PlainText(hostname) && PlainText(podIP) && name in {HOSTNAME, POD_IP}
    ensures Contains(WithSelfInit(ReplacePlaceholders(template, hostname, podIP), hostname, selfInit), Plain(name))
      <==> Appends(hostname, selfInit) && Contains(selfInit.text, Plain(name))
  {
    Names();
    NoPlaceholderLeft(template, hostname, podIP, name);
    var rendered := ReplacePlaceholders(template, hostname, podIP);
    if Appends(hostname, selfInit) {
      AcrossBlankLine(rendered, selfInit.text, name);
    }
  }

  lemma AcrossBlankLine(a: string, b: string, name: string)
    requires IsName(name)
    ensures Contains(a + "\n\n" + b, Plain(name)) <==> Contains(a, Plain(name)) || Contains(b, Plain(name))
  {
    var q := Plain(name);
    assert '\n' !in q;
    ContainsAcross(a, '\n', ['\n'] + b, q);
    ContainsAcross("", '\n', b, q);
    assert "" + ['\n'] + b == ['\n'] + b;
    assert a + ['\n'] + (['\n'] + b) == a + "\n\n" + b;
    assert q[0] == '$' && !Contains("", q);
  }
}

// Sequential text replacement against one simultaneous substitution.

module Substitution {
  import opened Options

  datatype Rule = Rule(pattern: string, text: string)

  /** strings.ReplaceAll with a non-empty pattern. */
  function ReplaceAll(s: string, pattern: string, text: string): string
    requires pattern != ""
    decreases |s|
  {
    if s == "" then ""
    else if pattern <= s then text + ReplaceAll(s[|pattern|..], pattern, text)
    else [s[0]] + ReplaceAll(s[1..], pattern, text)
  }

  /** strings.Contains */
  predicate Contains(s: string, q: string)
  {
    q <= s || (s != "" && Contains(s[1..], q))
  }

  ghost predicate Usable(rules: seq<Rule>)
  {
    forall rule :: rule in rules ==> rule.pattern != ""
  }

  /** The first rule whose pattern starts here. */
  ghost function Applies(s: string, rules: seq<Rule>): Option<Rule>
  {
    if rules == [] then None
    else
      var earlier, last := Applies(s, rules[..|rules| - 1]), rules[|rules| - 1];
      if earlier.Some? then earlier else if last.pattern <= s then Some(last) else None
  }

  lemma {:induction false} AppliesMembers(s: string, rules: seq<Rule>)
    ensures var a := Applies(s, rules);
      && (a.Some? ==> a.value in rules && a.value.pattern <= s)
      && (a.None? ==> forall rule :: rule in rules ==> !(rule.pattern <= s))
    decreases |rules|
  {
    if rules != [] {
      AppliesMembers(s, rules[..|rules| - 1]);
      assert rules == rules[..|rules| - 1] + [rules[|rules| - 1]];
    }
  }

  lemma AppliesSnoc(s: string, rules: seq<Rule>, rule: Rule)
    ensures Applies(s, rules + [rule])
      == if Applies(s, rules).Some? then Applies(s, rules) else if rule.pattern <= s then Some(rule) else None
  {
    assert (rules + [rule])[..|rules|] == rules;
  }

  /** One pass from left to right; replacement text is never looked at again. */
  ghost function Subst(s: string, rules: seq<Rule>): string
    requires Usable(rules)
    decreases |s|
  {
    AppliesMembers(s, rules);
    if s == "" then ""
    else
      var a := Applies(s, rules);
      if a.Some? then a.value.text + Subst(s[|a.value.pattern|..], rules)
      else [s[0]] + Subst(s[1..], rules)
  }

  ghost predicate Disjoint(a: string, b: string)
  {
    forall c :: c in a ==> c !in b
  }

  /** Nothing that looks like `q` can begin in, or run into, a replacement text. */
  ghost predicate Inert(rules: seq<Rule>, q: string)
  {
    forall rule :: rule in rules ==> rule.text != "" && Disjoint(rule.text, q)
  }

  /** No occurrence of `p` starts strictly inside an occurrence of `q`. */
  ghost predicate NoneInside(q: string, p: string)
  {
    forall i :: 0 < i < |q| ==> !(q[i..] <= p) && !(p <= q[i..])
  }

  lemma NoRuleAtHead(c: char, s: string, rules: seq<Rule>, q: string)
    requires Usable(rules) && Inert(rules, q) && c in q && [c] <= Subst(s, rules)
    ensures Applies(s, rules).None? && s != ""
  {
    AppliesMembers(s, rules);
    var out := Subst(s, rules);
    assert [c][0] == out[0];
  }

  /** What the output starts with, as far as it has no replaced character, the input starts with. */
  lemma {:induction false} PrefixBack(w: string, s: string, rules: seq<Rule>, q: string)
    requires Usable(rules) && Inert(rules, q)
    requires w <= Subst(s, rules) && forall c :: c in w ==> c in q
    ensures w <= s
    decreases |w|
  {
    if w != "" {
      AppliesMembers(s, rules);
      assert w[0] in q;
      NoRuleAtHead(w[0], s, rules, q);
      assert w[1..] <= Subst(s[1..], rules);
      PrefixBack(w[1..], s[1..], rules, q);
      assert s == [s[0]] + s[1..] && w == [w[0]] + w[1..];
    }
  }

  /** Text without the pattern's first character is passed over. */
  lemma {:induction false} SkipOver(text: string, t: string, q: string, k: string)
    requires q != "" && q[0] !in text
    ensures ReplaceAll(text + t, q, k) == text + ReplaceAll(t, q, k)
    decreases |text|
  {
    if text == "" {
      assert text + t == t && text + ReplaceAll(t, q, k) == ReplaceAll(t, q, k);
    } else {
      calc {
        ReplaceAll(text + t, q, k);
        { assert (text + t)[0] == text[0] && text[0] in text; }
        [text[0]] + ReplaceAll((text + t)[1..], q, k);
        { assert (text + t)[1..] == text[1..] + t; SkipOver(text[1..], t, q, k); }
        [text[0]] + (text[1..] + ReplaceAll(t, q, k));
        { HeadAndRest(text, ReplaceAll(t, q, k)); }
        text + ReplaceAll(t, q, k);
      }
    }
  }

  lemma HeadAndRest(text: string, t: string)
    requires text != ""
    ensures [text[0]] + (text[1..] + t) == text + t
  {}

  lemma Comparable(a: string, b: string, s: string)
    requires a <= s && b <= s
    ensures a <= b || b <= a
  {
    if |a| <= |b| {
      assert a == s[..|a|] && b[..|a|] == a;
    } else {
      assert b == s[..|b|] && a[..|b|] == b;
    }
  }

  lemma NotInside(q: string, p: string, t: string, i: nat)
    requires NoneInside(q, p) && 0 < i < |q| && q[i..] <= t
    ensures !(p <= t)
  {
    if p <= t {
      Comparable(q[i..], p, t);
    }
  }

  lemma NoneApplies(s: string, rules: seq<Rule>, q: string, i: nat)
    requires q <= s && i < |q| && Applies(s, rules).None?
    requires forall rule :: rule in rules ==> NoneInside(q, rule.pattern)
    ensures Applies(s[i..], rules).None?
  {
    var t := s[i..];
    AppliesMembers(t, rules);
    if i == 0 {
      assert t == s;
    } else {
      assert q[i..] <= t;
      forall rule | rule in rules ensures !(rule.pattern <= t) {
        NotInside(q, rule.pattern, t, i);
      }
    }
  }

  /** An occurrence of `q` at which no rule applies is copied as it is. */
  lemma {:induction false} CopyThrough(s: string, rules: seq<Rule>, q: string, i: nat)
    requires Usable(rules) && q <= s && i <= |q|
    requires forall rule :: rule in rules ==> NoneInside(q, rule.pattern)
    requires Applies(s, rules).None?
    ensures Subst(s[i..], rules) == q[i..] + Subst(s[|q|..], rules)
    decreases |q| - i
  {
    if i == |q| {
      assert q[i..] == "" && "" + Subst(s[|q|..], rules) == Subst(s[|q|..], rules);
    } else {
      var t, rest := s[i..], Subst(s[|q|..], rules);
      calc {
        Subst(t, rules);
        { NoneApplies(s, rules, q, i); }
        [t[0]] + Subst(t[1..], rules);
        { assert t[0] == q[i] && t[1..] == s[i + 1..]; CopyThrough(s, rules, q, i + 1); }
        [q[i]] + (q[i + 1..] + rest);
        { assert q[i..][0] == q[i] && q[i..][1..] == q[i + 1..]; HeadAndRest(q[i..], rest); }
        q[i..] + rest;
      }
    }
  }

  /** A pass over the output of a substitution is one more rule of that substitution. */
  lemma {:induction false} Fusion(s: string, rules: seq<Rule>, q: string, k: string)
    requires Usable(rules) && q != "" && Inert(rules, q)
    requires forall rule :: rule in rules ==> NoneInside(q, rule.pattern)
    ensures ReplaceAll(Subst(s, rules), q, k) == Subst(s, rules + [Rule(q, k)])
    decreases |s|
  {
    if s != "" {
      var all, a := rules + [Rule(q, k)], Applies(s, rules);
      AppliesSnoc(s, rules, Rule(q, k));
      AppliesMembers(s, rules);
      if a.Some? {
        var rest := s[|a.value.pattern|..];
        assert q[0] in q;
        SkipOver(a.value.text, Subst(rest, rules), q, k);
        Fusion(rest, rules, q, k);
      } else if q <= s {
        CopyThrough(s, rules, q, 0);
        FusionAtMatch(s, rules, q, k);
        Fusion(s[|q|..], rules, q, k);
      } else {
        FusionAtOther(s, rules, q, k);
        Fusion(s[1..], rules, q, k);
      }
    }
  }

  lemma FusionAtMatch(s: string, rules: seq<Rule>, q: string, k: string)
    requires Usable(rules) && q != "" && q <= s
    requires Subst(s[0..], rules) == q[0..] + Subst(s[|q|..], rules)
    ensures ReplaceAll(Subst(s, rules), q, k) == k + ReplaceAll(Subst(s[|q|..], rules), q, k)
  {
    assert s[0..] == s && q[0..] == q;
    var t := Subst(s, rules);
    assert q <= t && t[|q|..] == Subst(s[|q|..], rules);
  }

  lemma FusionAtOther(s: string, rules: seq<Rule>, q: string, k: string)
    requires Usable(rules) && Inert(rules, q) && s != "" && q != "" && !(q <= s)
    requires Applies(s, rules).None?
    ensures ReplaceAll(Subst(s, rules), q, k) == [s[0]] + ReplaceAll(Subst(s[1..], rules), q, k)
  {
    var t := Subst(s, rules);
    if q <= t {
      PrefixBack(q, s, rules, q);
    }
    assert t == [s[0]] + Subst(s[1..], rules);
    assert t[0] == s[0] && t[1..] == Subst(s[1..], rules);
  }

  /** A pattern of the substitution does not occur in its output. */
  lemma {:induction false} NoneLeft(s: string, rules: seq<Rule>, q: string)
    requires Usable(rules) && Inert(rules, q) && q != "" && exists rule :: rule in rules && rule.pattern == q
    ensures !Contains(Subst(s, rules), q)
    decreases |s|
  {
    if s != "" {
      AppliesMembers(s, rules);
      var a := Applies(s, rules);
      if a.Some? {
        assert q[0] in q;
        var rest := s[|a.value.pattern|..];
        NoneLeft(rest, rules, q);
        ContainsAfter(a.value.text, Subst(rest, rules), q);
      } else {
        NoneLeft(s[1..], rules, q);
        var t := Subst(s, rules);
        if q <= t {
          PrefixBack(q, s, rules, q);
        }
        assert t[1..] == Subst(s[1..], rules);
      }
    }
  }

  lemma {:induction false} ContainsAfter(text: string, t: string, q: string)
    requires q != "" && q[0] !in text
    ensures Contains(text + t, q) <==> Contains(t, q)
    decreases |text|
  {
    if text == "" {
      assert text + t == t;
    } else {
      assert (text + t)[1..] == text[1..] + t;
      ContainsAfter(text[1..], t, q);
    }
  }

  /** Text that is absent on both sides of a foreign character is absent from the whole. */
  lemma {:induction false} ContainsAcross(a: string, c: char, b: string, q: string)
    requires q != "" && c !in q
    ensures Contains(a + [c] + b, q) <==> Contains(a, q) || Contains(b, q)
    decreases |a|
  {
    var s := a + [c] + b;
    if a == "" {
      assert s == [c] + b && s[1..] == b;
      assert q[0] in q;
    } else {
      assert s[1..] == a[1..] + [c] + b;
      ContainsAcross(a[1..], c, b, q);
      assert s[|a|] == c;
      if q <= s && |q| <= |a| {
        assert s[..|a|] == a && q == s[..|q|] == a[..|q|];
      }
      if q <= a {
        assert q == a[..|q|] == s[..|q|];
      }
    }
  }
}

/** Numbers in generated identifiers: `review_cycle_3`, `agent-builder-12`. */
module Decimal {
  import opened Wrappers

  const DIGITS: string := "0123456789"

  function Digits(n: nat): (s: string)
    ensures s != "" && forall c :: c in s ==> c in DIGITS
  {
    if n < 10 then [DIGITS[n]] else Digits(n / 10) + [DIGITS[n % 10]]
  }

  function DigitValue(c: char): (d: nat)
    requires c in DIGITS
    ensures d < 10 && DIGITS[d] == c
  {
    c as nat - '0' as nat
  }

  // The number a run of digits denotes, as parseInt reads it.
  function Value(s: string): nat
    requires forall c :: c in s ==> c in DIGITS
  {
    if s == "" then 0 else 10 * Value(s[..|s| - 1]) + DigitValue(s[|s| - 1])
  }

  lemma ValueOfMore(s: string, c: char)
    requires (forall d :: d in s ==> d in DIGITS) && c in DIGITS
    ensures Value(s + [c]) == 10 * Value(s) + DigitValue(c)
  {
    assert (s + [c])[..|s|] == s;
  }

  lemma DigitValueOf(d: nat)
    requires d < 10
    ensures DIGITS[d] in DIGITS && DigitValue(DIGITS[d]) == d
  {
  }

  lemma {:induction false} ValueOfDigits(n: nat)
    ensures Value(Digits(n)) == n
  {
    DigitValueOf(n % 10);
    if n < 10 {
      ValueOfMore("", DIGITS[n]);
      assert "" + [DIGITS[n]] == Digits(n);
    } else {
      ValueOfDigits(n / 10);
      ValueOfMore(Digits(n / 10), DIGITS[n % 10]);
    }
  }

  // Without leading zeros, the most significant digit first.
  lemma {:induction false} DigitsAreDecimal(n: nat)
    ensures n > 0 ==> Digits(n)[0] != '0'
    ensures n >= 10 ==> Digits(n)[..|Digits(n)| - 1] == Digits(n / 10)
    ensures Digits(0) == "0" && Digits(9) == "9" && Digits(120) == "120"
  {
    if n >= 10 {
      DigitsAreDecimal(n / 10);
    }
    assert Digits(12) == Digits(1) + ['2'] == ['1', '2'];
    assert Digits(120) == Digits(12) + ['0'];
  }

  lemma DigitsInjective(m: nat, n: nat)
    requires Digits(m) == Digits(n)
    ensures m == n
  {
    ValueOfDigits(m);
    ValueOfDigits(n);
  }

  lemma PrefixedInjective(prefix: string, m: nat, n: nat)
    requires prefix + Digits(m) == prefix + Digits(n)
    ensures m == n
  {
    assert (prefix + Digits(m))[|prefix|..] == Digits(m);
    assert (prefix + Digits(n))[|prefix|..] == Digits(n);
    DigitsInjective(m, n);
  }

  function AgentId(agent: string, index: nat): string {
    "agent-" + agent + "-" + Digits(index)
  }

  // Splits at the last dash.
  function LastDash(s: string): (r: Option<nat>)
    ensures r.None? ==> '-' !in s
    ensures r.Some? ==> r.value < |s| && s[r.value] == '-' && '-' !in s[r.value + 1..]
  {
    if s == "" then None
    else if s[|s| - 1] == '-' then Some(|s| - 1)
    else
      var r := LastDash(s[..|s| - 1]);
      assert s == s[..|s| - 1] + [s[|s| - 1]];
      if r.Some? then
        assert s[r.value + 1..] == s[..|s| - 1][r.value + 1..] + [s[|s| - 1]];
        r
      else r
  }

  const LINE_TERMINATORS: string := "\n\r\U{2028}\U{2029}"

  // What a dot-plus pattern matches: something, all on one line.
  predicate OneLine(s: string) {
    s != "" && forall c :: c in s ==> c !in LINE_TERMINATORS
  }

  // The layout's pattern for agent nodes: a name on one line and a run of digits after the last dash.
  function ParseAgentId(id: string): Option<(string, nat)> {
    if |id| < 6 || id[..6] != "agent-" then None
    else
      var rest := id[6..];
      match LastDash(rest)
      case None => None
      case Some(k) =>
        var tail := rest[k + 1..];
        if OneLine(rest[..k]) && tail != "" && forall c :: c in tail ==> c in DIGITS
        then Some((rest[..k], Value(tail))) else None
  }

  lemma LastDashOf(a: string, t: string)
    requires '-' !in t
    ensures LastDash(a + "-" + t) == Some(|a|)
  {
    var s := a + "-" + t;
    var r := LastDash(s);
    assert s[|a|] == '-';
    assert r.Some?;
    assert r.value <= |a|;
  }

  lemma NoDashInDigits(n: nat)
    ensures '-' !in Digits(n)
  {
    assert '-' !in DIGITS;
  }

  lemma OneLineIff(s: string)
    ensures OneLine(s) <==> s != "" && '\n' !in s && '\r' !in s && '\U{2028}' !in s && '\U{2029}' !in s
  {
    assert LINE_TERMINATORS[0] == '\n' && LINE_TERMINATORS[1] == '\r';
    assert LINE_TERMINATORS[2] == '\U{2028}' && LINE_TERMINATORS[3] == '\U{2029}';
  }

  // A generated identifier reads back as the agent and the index it was made from exactly when the
  // name is not empty and has no line terminator; otherwise it is not read at all.
  lemma AgentIdRoundTrip(agent: string, index: nat)
    ensures ParseAgentId("agent-" + agent + "-" + Digits(index)) ==
      if agent != "" && '\n' !in agent && '\r' !in agent && '\U{2028}' !in agent && '\U{2029}' !in agent
      then Some((agent, index)) else None
  {
    var id, rest := AgentId(agent, index), agent + "-" + Digits(index);
    assert id[..6] == "agent-" && id[6..] == rest;
    OneLineIff(agent);
    NoDashInDigits(index);
    LastDashOf(agent, Digits(index));
    assert rest[|agent| + 1..] == Digits(index) && rest[..|agent|] == agent;
    ValueOfDigits(index);
  }

  // Identifiers are never shared, the empty agent name included.
  lemma AgentIdInjective(a: string, i: nat, b: string, j: nat)
    ensures AgentId(a, i) == AgentId(b, j) <==> a == b && i == j
  {
    if AgentId(a, i) == AgentId(b, j) {
      var s, t := a + "-" + Digits(i), b + "-" + Digits(j);
      assert AgentId(a, i)[6..] == s && AgentId(b, j)[6..] == t;
      NoDashInDigits(i);
      NoDashInDigits(j);
      LastDashOf(a, Digits(i));
      LastDashOf(b, Digits(j));
      assert s[..|a|] == a && t[..|b|] == b && s[|a| + 1..] == Digits(i) && t[|b| + 1..] == Digits(j);
      DigitsInjective(i, j);
    }
  }
}

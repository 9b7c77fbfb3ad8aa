/** Idempotency keys of turn submissions (`_submit`, `_maybe_tool_followup`). */
module Keys {
  function Digit(d: nat): char
    requires d < 10
  {
    '0' + d as char
  }

  /** The decimal text of a number. */
  function Decimal(n: nat): string {
    if n < 10 then [Digit(n)] else Decimal(n / 10) + [Digit(n % 10)]
  }

  function StepSuffix(step: nat): string {
    if step == 0 then "" else ":tool:" + Decimal(step)
  }

  /** The key of the first submission of a turn, or of its `step`-th tool follow-up. */
  function Key(experiment: string, turn: nat, step: nat): string {
    experiment + ":turn:" + Decimal(turn) + StepSuffix(step)
  }

  function Value(text: string): nat {
    if text == "" then 0
    else
      var last := text[|text| - 1];
      10 * Value(text[..|text| - 1]) + if '0' <= last <= '9' then (last - '0') as nat else 0
  }

  lemma {:induction false} ValueOfDecimal(n: nat)
    ensures Value(Decimal(n)) == n
  {
    if n < 10 {
      assert Decimal(n)[..0] == "";
    } else {
      ValueOfDecimal(n / 10);
      var text := Decimal(n / 10) + [Digit(n % 10)];
      assert text[..|text| - 1] == Decimal(n / 10);
    }
  }

  lemma {:induction false} DecimalHasNoColon(n: nat)
    ensures ':' !in Decimal(n)
  {
    if n >= 10 {
      DecimalHasNoColon(n / 10);
    }
  }

  lemma FirstOf(a: string, x: string)
    ensures a != "" ==> a + x != "" && (a + x)[0] == a[0] && a[0] in a
  {
  }

  /** Texts without a colon are determined by what they are followed by. */
  lemma {:induction false} SplitAtColon(a: string, x: string, b: string, y: string)
    requires ':' !in a && ':' !in b && a + x == b + y
    requires (x != "" ==> x[0] == ':') && (y != "" ==> y[0] == ':')
    ensures a == b && x == y
  {
    if a == "" || b == "" {
      FirstOf(a, x);
      FirstOf(b, y);
      assert "" + x == x && "" + y == y;
    } else {
      assert (a + x)[0] == a[0] && (b + y)[0] == b[0];
      assert (a + x)[1..] == a[1..] + x && (b + y)[1..] == b[1..] + y;
      SplitAtColon(a[1..], x, b[1..], y);
      assert a == [a[0]] + a[1..] && b == [b[0]] + b[1..];
    }
  }

  lemma PrefixesAgree(p: string, q: string, x: string, y: string)
    requires |p| == |q| && p + x == q + y
    ensures p == q && x == y
  {
    assert (p + x)[..|p|] == p && (q + y)[..|q|] == q;
    assert (p + x)[|p|..] == x && (q + y)[|q|..] == y;
  }

  lemma StepSuffixIsInjective(s: nat, s': nat)
    requires StepSuffix(s) == StepSuffix(s')
    ensures s == s'
  {
    if s != 0 && s' != 0 {
      PrefixesAgree(":tool:", ":tool:", Decimal(s), Decimal(s'));
      ValueOfDecimal(s);
      ValueOfDecimal(s');
    }
  }

  lemma PartsAreDetermined(
      mark: string, e: string, d: string, x: string, e': string, d': string, x': string)
    requires |e| == |e'| && e + mark + d + x == e' + mark + d' + x'
    requires ':' !in d && ':' !in d'
    requires (x != "" ==> x[0] == ':') && (x' != "" ==> x'[0] == ':')
    ensures e == e' && d == d' && x == x'
  {
    assert e + mark + d + x == (e + mark) + (d + x);
    assert e' + mark + d' + x' == (e' + mark) + (d' + x');
    PrefixesAgree(e + mark, e' + mark, d + x, d' + x');
    PrefixesAgree(e, e', mark, mark);
    SplitAtColon(d, x, d', x');
  }

  /** Distinct (turn, step) pairs never share a key, nor do experiments whose ids have one length. */
  lemma KeysAreDistinct(e: string, turn: nat, step: nat, e': string, turn': nat, step': nat)
    requires |e| == |e'|
    ensures Key(e, turn, step) == Key(e', turn', step') <==> e == e' && turn == turn' && step == step'
  {
    if Key(e, turn, step) == Key(e', turn', step') {
      DecimalHasNoColon(turn);
      DecimalHasNoColon(turn');
      PartsAreDetermined(":turn:", e, Decimal(turn), StepSuffix(step), e', Decimal(turn'), StepSuffix(step'));
      ValueOfDecimal(turn);
      ValueOfDecimal(turn');
      StepSuffixIsInjective(step, step');
    }
  }
}

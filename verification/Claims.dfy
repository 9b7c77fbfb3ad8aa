/** Which session a claims request names before and after its worktree paths are mapped
    (`map_path_option` in `_translate_argv`). */
module Claims {
  import opened Wrappers
  import opened Argv
  import opened SessionBinding
  import opened Translation

  // ----- what the rewriting consumes ----------------------------------------

  /** The tokens that the mapping walk replaces, wherever the scanner reads its option's name. */
  function Consumed(option: string, tokens: seq<string>): (marks: seq<bool>)
    ensures |marks| == |tokens|
    decreases |tokens|
  {
    if tokens == [] then []
    else if tokens[0] == option && |tokens| > 1 then [false, true] + Consumed(option, tokens[2..])
    else [false] + Consumed(option, tokens[1..])
  }

  /** A token that is neither an option nor a session. */
  predicate IsWord(token: string) {
    !Dashed(token) && !IsSession(token)
  }

  /** What the host makes of a path: an absolute one. */
  ghost predicate AbsolutePaths(f: PathMap) {
    forall v :: f(v).Some? ==> f(v).value != "" && f(v).value[0] == '/'
  }

  /** Both assign a value to the same option. */
  predicate SameAssignment(a: string, b: string) {
    && Dashed(a) && Dashed(b) && !IsTerminator(a) && !IsTerminator(b)
    && OptionName(a) == OptionName(b) && |OptionName(a)| < |a| && |OptionName(b)| < |b|
  }

  predicate Alike(a: string, b: string) {
    a == b || SameAssignment(a, b)
  }

  /** The second list is the first with words in the marked places. */
  predicate Replaces(a: seq<string>, b: seq<string>, marks: seq<bool>) {
    && |a| == |b| == |marks|
    && (a != [] ==>
          (if marks[0] then IsWord(b[0]) else Alike(a[0], b[0])) && Replaces(a[1..], b[1..], marks[1..]))
  }

  lemma MappedTokenIsAlike(option: string, token: string, value: string)
    requires IsOptionName(option) && Assigns(token, option)
    ensures SameAssignment(token, option + "=" + value)
  {
    OptionNameOfAssigned(option, value);
    assert token == option + "=" + token[|option| + 1..];
    OptionNameOfAssigned(option, token[|option| + 1..]);
    assert (option + "=" + value)[0] == option[0];
    assert token[|option|] == '=' && (option + "=" + value)[|option|] == '=';
  }

  lemma {:induction false} MappingReplaces(option: string, f: PathMap, tokens: seq<string>)
    requires IsOptionName(option) && AbsolutePaths(f) && MapAccepts(option, f, tokens)
    ensures Replaces(tokens, MapOption(option, f, tokens), Consumed(option, tokens))
    decreases |tokens|
  {
    if tokens != [] {
      var image, marks := MapOption(option, f, tokens), Consumed(option, tokens);
      if tokens[0] == option {
        var value := f(tokens[1]).value;
        MappingReplaces(option, f, tokens[2..]);
        assert value[0] == '/';
        assert image == [option, value] + MapOption(option, f, tokens[2..]);
        assert image[1..][1..] == MapOption(option, f, tokens[2..]);
        assert marks[1..][1..] == Consumed(option, tokens[2..]);
        assert Replaces(tokens[1..], image[1..], marks[1..]);
      } else {
        MappingReplaces(option, f, tokens[1..]);
        assert image[1..] == MapOption(option, f, tokens[1..]) && marks[1..] == Consumed(option, tokens[1..]);
        if Assigns(tokens[0], option) {
          MappedTokenIsAlike(option, tokens[0], f(tokens[0][|option| + 1..]).value);
        }
      }
    }
  }

  // ----- the session does not depend on the host ------------------------------

  /** In the scanner's eyes the two tokens are the same. */
  predicate Equivalent(a: string, b: string) {
    Alike(a, b) || (IsWord(a) && IsWord(b))
  }

  predicate AllEquivalent(a: seq<string>, b: seq<string>) {
    |a| == |b| && (a != [] ==> Equivalent(a[0], b[0]) && AllEquivalent(a[1..], b[1..]))
  }

  lemma {:induction false} EquivalentLater(a: seq<string>, b: seq<string>, w: nat)
    requires AllEquivalent(a, b) && w <= |a|
    ensures AllEquivalent(a[w..], b[w..])
  {
    if w > 0 {
      EquivalentLater(a[1..], b[1..], w - 1);
      assert a[1..][w - 1..] == a[w..] && b[1..][w - 1..] == b[w..];
    }
  }

  lemma {:induction false} EquivalentRuns(a: seq<string>, b: seq<string>)
    requires AllEquivalent(a, b)
    ensures RunLength(a) == RunLength(b)
  {
    if a != [] {
      assert Equivalent(a[0], b[0]);
      EquivalentRuns(a[1..], b[1..]);
    }
  }

  lemma EquivalentWidths(table: Table, a: seq<string>, b: seq<string>)
    requires AllEquivalent(a, b) && a != [] && Dashed(a[0])
    ensures OptionWidth(table, a) == OptionWidth(table, b)
  {
    assert Equivalent(a[0], b[0]);
    EquivalentRuns(a[1..], b[1..]);
  }

  lemma {:induction false} EquivalentLiterals(a: seq<string>, b: seq<string>)
    requires AllEquivalent(a, b)
    ensures FirstSessionValue(a) == FirstSessionValue(b)
  {
    if a != [] {
      EquivalentLiterals(a[1..], b[1..]);
    }
  }

  lemma {:induction false} EquivalentFound(table: Table, a: seq<string>, b: seq<string>)
    requires AllEquivalent(a, b)
    ensures Found(table, a) == Found(table, b)
    decreases |a|
  {
    if a != [] {
      if IsTerminator(a[0]) {
        EquivalentLiterals(a[1..], b[1..]);
      } else if Dashed(a[0]) {
        EquivalentWidths(table, a, b);
        var w := OptionWidth(table, a);
        if w < |a| {
          EquivalentLater(a, b, w);
          EquivalentFound(table, a[w..], b[w..]);
        }
      } else {
        EquivalentFound(table, a[1..], b[1..]);
      }
    }
  }

  /** The marked tokens blanked. */
  function Blanked(tokens: seq<string>, marks: seq<bool>): (blank: seq<string>)
    requires |marks| == |tokens|
    ensures |blank| == |tokens|
  {
    if tokens == [] then [] else [if marks[0] then "" else tokens[0]] + Blanked(tokens[1..], marks[1..])
  }

  lemma {:induction false} ReplacedIsEquivalent(a: seq<string>, b: seq<string>, marks: seq<bool>)
    requires Replaces(a, b, marks)
    ensures AllEquivalent(Blanked(a, marks), b)
  {
    if a != [] {
      ReplacedIsEquivalent(a[1..], b[1..], marks[1..]);
      assert Blanked(a, marks)[1..] == Blanked(a[1..], marks[1..]);
      assert IsWord("");
    }
  }

  /** Whatever the host answers, the session read after the mapping is the one that the caller's argv
      has with the replaced tokens blanked. */
  lemma MappedSession(table: Table, option: string, f: PathMap, tokens: seq<string>, at: nat)
    requires IsOptionName(option) && AbsolutePaths(f) && MapAccepts(option, f, tokens)
    ensures SessionOf(FirstSession(Scan(table, MapOption(option, f, tokens), at)))
         == SessionOf(FirstSession(Scan(table, Blanked(tokens, Consumed(option, tokens)), at)))
  {
    MappingReplaces(option, f, tokens);
    var blank, mapped := Blanked(tokens, Consumed(option, tokens)), MapOption(option, f, tokens);
    ReplacedIsEquivalent(tokens, mapped, Consumed(option, tokens));
    EquivalentFound(table, blank, mapped);
    FoundIsSession(table, blank, at);
    FoundIsSession(table, mapped, at);
  }

  // ----- where no option is consumed -------------------------------------------

  /** None of the tokens that the scanner reads as an option, or as the `--` that ends them, is marked. */
  predicate OptionsKept(table: Table, tokens: seq<string>, marks: seq<bool>)
    requires |marks| == |tokens|
    decreases |tokens|
  {
    if tokens == [] then true
    else if IsTerminator(tokens[0]) then !marks[0]
    else if Dashed(tokens[0]) then
      var w := OptionWidth(table, tokens);
      !marks[0] && (w < |tokens| ==> OptionsKept(table, tokens[w..], marks[w..]))
    else OptionsKept(table, tokens[1..], marks[1..])
  }

  /** The token with index `i` in the whole argv is marked. */
  predicate IsMarked(marks: seq<bool>, at: nat, i: nat) {
    at <= i < at + |marks| && marks[i - at]
  }

  /** The first session that is not marked. */
  function FirstKept(positionals: seq<(nat, string)>, marks: seq<bool>, at: nat): Option<string> {
    if positionals == [] then None
    else
      var (i, v) := positionals[0];
      if IsSession(v) && !IsMarked(marks, at, i) then Some(v)
      else FirstKept(positionals[1..], marks, at)
  }

  lemma {:induction false} FirstKeptLater(
      positionals: seq<(nat, string)>, marks: seq<bool>, at: nat, w: nat)
    requires w <= |marks| && forall p <- positionals :: at + w <= p.0
    ensures FirstKept(positionals, marks, at) == FirstKept(positionals, marks[w..], at + w)
  {
    if positionals != [] {
      assert positionals[0] in positionals;
      FirstKeptLater(positionals[1..], marks, at, w);
    }
  }

  lemma {:induction false} EnumerateIsLater(tokens: seq<string>, at: nat)
    ensures forall p <- Enumerate(tokens, at) :: at <= p.0
  {
    if tokens != [] {
      EnumerateIsLater(tokens[1..], at + 1);
    }
  }

  lemma {:induction false} ScanIsLater(table: Table, tokens: seq<string>, at: nat)
    ensures forall p <- Scan(table, tokens, at) :: at <= p.0
    decreases |tokens|
  {
    if tokens != [] {
      if IsTerminator(tokens[0]) {
        EnumerateIsLater(tokens[1..], at + 1);
      } else if Dashed(tokens[0]) {
        var w := OptionWidth(table, tokens);
        ScanIsLater(table, Skip(tokens, w), at + w);
      } else {
        ScanIsLater(table, tokens[1..], at + 1);
      }
    }
  }

  /** The first literal session that is not marked. */
  function KeptValue(tokens: seq<string>, marks: seq<bool>): Option<string>
    requires |marks| == |tokens|
  {
    if tokens == [] then None
    else if IsSession(tokens[0]) && !marks[0] then Some(tokens[0])
    else KeptValue(tokens[1..], marks[1..])
  }

  /** The first session of the scanner that is not marked. */
  function FoundKept(table: Table, tokens: seq<string>, marks: seq<bool>): Option<string>
    requires |marks| == |tokens|
    decreases |tokens|
  {
    if tokens == [] then None
    else if IsTerminator(tokens[0]) then KeptValue(tokens[1..], marks[1..])
    else if Dashed(tokens[0]) then
      var w := OptionWidth(table, tokens);
      if w < |tokens| then FoundKept(table, tokens[w..], marks[w..]) else None
    else if IsSession(tokens[0]) && !marks[0] then Some(tokens[0])
    else FoundKept(table, tokens[1..], marks[1..])
  }

  lemma {:induction false} KeptValueIsFirst(tokens: seq<string>, marks: seq<bool>, at: nat)
    requires |marks| == |tokens|
    ensures FirstKept(Enumerate(tokens, at), marks, at) == KeptValue(tokens, marks)
  {
    if tokens != [] {
      KeptValueIsFirst(tokens[1..], marks[1..], at + 1);
      EnumerateIsLater(tokens[1..], at + 1);
      FirstKeptLater(Enumerate(tokens[1..], at + 1), marks, at, 1);
    }
  }

  lemma {:induction false} FoundKeptIsFirst(table: Table, tokens: seq<string>, marks: seq<bool>, at: nat)
    requires |marks| == |tokens|
    ensures FirstKept(Scan(table, tokens, at), marks, at) == FoundKept(table, tokens, marks)
    decreases |tokens|
  {
    if tokens != [] {
      if IsTerminator(tokens[0]) {
        KeptAtTerminator(table, tokens, marks, at);
      } else if Dashed(tokens[0]) {
        var w := OptionWidth(table, tokens);
        KeptAfterOption(table, tokens, marks, at, w);
        if w < |tokens| {
          FoundKeptIsFirst(table, tokens[w..], marks[w..], at + w);
        }
      } else {
        KeptAfterWord(table, tokens, marks, at);
        FoundKeptIsFirst(table, tokens[1..], marks[1..], at + 1);
      }
    }
  }

  lemma KeptAtTerminator(table: Table, a: seq<string>, marks: seq<bool>, at: nat)
    requires a != [] && |marks| == |a| && IsTerminator(a[0])
    ensures FirstKept(Scan(table, a, at), marks, at) == KeptValue(a[1..], marks[1..])
  {
    KeptValueIsFirst(a[1..], marks[1..], at + 1);
    EnumerateIsLater(a[1..], at + 1);
    FirstKeptLater(Enumerate(a[1..], at + 1), marks, at, 1);
  }

  lemma KeptAfterOption(table: Table, a: seq<string>, marks: seq<bool>, at: nat, w: nat)
    requires a != [] && |marks| == |a| && Dashed(a[0]) && !IsTerminator(a[0]) && w == OptionWidth(table, a)
    ensures FirstKept(Scan(table, a, at), marks, at)
         == if w < |a| then FirstKept(Scan(table, a[w..], at + w), marks[w..], at + w) else None
  {
    if w < |a| {
      ScanIsLater(table, a[w..], at + w);
      FirstKeptLater(Scan(table, a[w..], at + w), marks, at, w);
    }
  }

  lemma KeptAfterWord(table: Table, a: seq<string>, marks: seq<bool>, at: nat)
    requires a != [] && |marks| == |a| && !Dashed(a[0])
    ensures FirstKept(Scan(table, a, at), marks, at)
         == if IsSession(a[0]) && !marks[0] then Some(a[0])
            else FirstKept(Scan(table, a[1..], at + 1), marks[1..], at + 1)
  {
    var rest := Scan(table, a[1..], at + 1);
    ScanIsLater(table, a[1..], at + 1);
    FirstKeptLater(rest, marks, at, 1);
    assert Scan(table, a, at) == [(at, a[0])] + rest;
    assert Scan(table, a, at)[1..] == rest;
  }

  lemma {:induction false} ReplacedRuns(a: seq<string>, b: seq<string>, marks: seq<bool>)
    requires Replaces(a, b, marks)
    requires RunLength(a) < |a| ==> !marks[RunLength(a)]
    ensures RunLength(a) == RunLength(b)
  {
    if a != [] {
      if !Dashed(a[0]) {
        ReplacedRuns(a[1..], b[1..], marks[1..]);
      }
    }
  }

  lemma ReplacedWidths(table: Table, a: seq<string>, b: seq<string>, marks: seq<bool>)
    requires Replaces(a, b, marks) && OptionsKept(table, a, marks)
    requires a != [] && Dashed(a[0]) && !IsTerminator(a[0])
    ensures Dashed(b[0]) && !IsTerminator(b[0]) && OptionWidth(table, a) == OptionWidth(table, b)
  {
    assert Alike(a[0], b[0]);
    var n := RunLength(a[1..]);
    RunIsUndashed(a[1..]);
    if OptionWidth(table, a) == 1 + n && 1 + n < |a| {
      assert a[1 + n..][0] == a[1..][n] && marks[1 + n..][0] == marks[1..][n];
      ReplacedRuns(a[1..], b[1..], marks[1..]);
    } else if n == |a| - 1 {
      ReplacedRuns(a[1..], b[1..], marks[1..]);
    }
  }

  lemma {:induction false} ReplacesLater(a: seq<string>, b: seq<string>, marks: seq<bool>, w: nat)
    requires Replaces(a, b, marks) && w <= |a|
    ensures Replaces(a[w..], b[w..], marks[w..])
  {
    if w > 0 {
      ReplacesLater(a[1..], b[1..], marks[1..], w - 1);
      assert a[1..][w - 1..] == a[w..] && b[1..][w - 1..] == b[w..] && marks[1..][w - 1..] == marks[w..];
    }
  }

  lemma {:induction false} ReplacedLiterals(a: seq<string>, b: seq<string>, marks: seq<bool>)
    requires Replaces(a, b, marks)
    ensures FirstSessionValue(b) == KeptValue(a, marks)
  {
    if a != [] {
      ReplacedLiterals(a[1..], b[1..], marks[1..]);
    }
  }

  /** Replacing only what the scanner reads as values, positionals and literals, the session is the
      first one that is not replaced. */
  lemma {:induction false} ReplacedFound(table: Table, a: seq<string>, b: seq<string>, marks: seq<bool>)
    requires Replaces(a, b, marks) && OptionsKept(table, a, marks)
    ensures Found(table, b) == FoundKept(table, a, marks)
    decreases |a|
  {
    if a != [] {
      if IsTerminator(a[0]) {
        ReplacedLiterals(a[1..], b[1..], marks[1..]);
      } else if Dashed(a[0]) {
        ReplacedWidths(table, a, b, marks);
        var w := OptionWidth(table, a);
        if w < |a| {
          ReplacesLater(a, b, marks, w);
          ReplacedFound(table, a[w..], b[w..], marks[w..]);
        }
      } else {
        ReplacedFound(table, a[1..], b[1..], marks[1..]);
      }
    }
  }

  /** The first session is also the first kept one unless it is marked; with none there is no kept one. */
  lemma {:induction false} KeptIsFirst(positionals: seq<(nat, string)>, marks: seq<bool>, at: nat)
    ensures var first := FirstSession(positionals);
            && (first.None? ==> FirstKept(positionals, marks, at) == None)
            && (first.Some? && !IsMarked(marks, at, first.value.0) ==>
                  FirstKept(positionals, marks, at) == Some(first.value.1))
  {
    if positionals != [] {
      KeptIsFirst(positionals[1..], marks, at);
    }
  }

  /** The first session is marked, and the first one that is not marked, if any, is another. */
  predicate FirstIsReplaced(positionals: seq<(nat, string)>, marks: seq<bool>, at: nat) {
    var first := FirstSession(positionals);
    && first.Some? && IsMarked(marks, at, first.value.0)
    && FirstKept(positionals, marks, at) != Some(first.value.1)
  }

  /** Where no option is consumed, the mapping changes the session exactly if it replaces the token that
      names it and the next session left standing is another. */
  lemma MappingShiftsSession(table: Table, option: string, f: PathMap, tokens: seq<string>, at: nat)
    requires IsOptionName(option) && AbsolutePaths(f) && MapAccepts(option, f, tokens)
    requires OptionsKept(table, tokens, Consumed(option, tokens))
    ensures SessionOf(FirstSession(Scan(table, MapOption(option, f, tokens), at)))
            != SessionOf(FirstSession(Scan(table, tokens, at)))
       <==> FirstIsReplaced(Scan(table, tokens, at), Consumed(option, tokens), at)
  {
    var marks, mapped := Consumed(option, tokens), MapOption(option, f, tokens);
    MappingReplaces(option, f, tokens);
    ReplacedFound(table, tokens, mapped, marks);
    FoundIsSession(table, mapped, at);
    FoundKeptIsFirst(table, tokens, marks, at);
    KeptIsFirst(Scan(table, tokens, at), marks, at);
  }

  // ----- undashed values ---------------------------------------------------------

  /** A marked token stands after the option's name. */
  predicate Follow(option: string, before: string, tokens: seq<string>, marks: seq<bool>) {
    && |marks| == |tokens|
    && forall k :: 0 <= k < |tokens| && marks[k] ==> (if k == 0 then before else tokens[k - 1]) == option
  }

  lemma {:induction false} ConsumedFollow(option: string, before: string, tokens: seq<string>)
    ensures Follow(option, before, tokens, Consumed(option, tokens))
    decreases |tokens|
  {
    if tokens != [] {
      if tokens[0] == option && |tokens| > 1 {
        ConsumedFollow(option, tokens[1], tokens[2..]);
      } else {
        ConsumedFollow(option, tokens[0], tokens[1..]);
      }
    }
  }

  /** With undashed values no option is consumed. */
  lemma {:induction false} PlainIsKept(
      table: Table, option: string, before: string, tokens: seq<string>, marks: seq<bool>)
    requires IsOptionName(option) && option in table && table[option] == Exactly(1)
    requires before != option && Follow(option, before, tokens, marks) && PlainValues(table, tokens)
    ensures OptionsKept(table, tokens, marks)
    decreases |tokens|
  {
    if tokens != [] {
      if IsTerminator(tokens[0]) {
      } else if Dashed(tokens[0]) {
        var w := OptionWidth(table, tokens);
        if w < |tokens| {
          LastOfOption(table, option, tokens, w);
          PlainIsKept(table, option, tokens[w - 1], tokens[w..], marks[w..]);
        }
      } else {
        PlainIsKept(table, option, tokens[0], tokens[1..], marks[1..]);
      }
    }
  }

  lemma LastOfOption(table: Table, option: string, tokens: seq<string>, w: nat)
    requires IsOptionName(option) && option in table && table[option] == Exactly(1)
    requires tokens != [] && Dashed(tokens[0]) && !IsTerminator(tokens[0])
    requires PlainValues(table, tokens) && w == OptionWidth(table, tokens) && w < |tokens|
    ensures tokens[w - 1] != option
  {
    OptionNameWithoutEquals(option);
  }
}

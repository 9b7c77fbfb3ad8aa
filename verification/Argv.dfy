/** The argv grammar that binds a request to its session
    (`_cli_positionals`, `_accept_positionals`, `_session_argument`). */
module Argv {
  import opened Wrappers

  /** How many tokens an option takes: a fixed number, or every token up to the next dashed one. */
  datatype Arity = Exactly(n: nat) | UntilDash

  type Table = map<string, Arity>

  predicate Dashed(token: string) {
    token != "" && token[0] == '-'
  }

  /** The token `--`, which ends the options. */
  predicate IsTerminator(token: string) {
    |token| == 2 && token[0] == '-' && token[1] == '-'
  }

  /** The part of a token before its first `=`, or the whole token. */
  function OptionName(token: string): string {
    if token == "" || token[0] == '=' then "" else [token[0]] + OptionName(token[1..])
  }

  /** Length of the run of undashed tokens at the front. */
  function RunLength(tokens: seq<string>): (n: nat)
    ensures n <= |tokens|
  {
    if tokens == [] || Dashed(tokens[0]) then 0 else 1 + RunLength(tokens[1..])
  }

  lemma {:induction false} RunIsUndashed(tokens: seq<string>)
    ensures forall k :: 0 <= k < RunLength(tokens) ==> !Dashed(tokens[k])
    ensures RunLength(tokens) < |tokens| ==> Dashed(tokens[RunLength(tokens)])
  {
    if tokens != [] && !Dashed(tokens[0]) {
      RunIsUndashed(tokens[1..]);
      forall k | 0 <= k < RunLength(tokens) ensures !Dashed(tokens[k]) {
        if k > 0 {
          assert tokens[k] == tokens[1..][k - 1];
        }
      }
    }
  }

  /** How many tokens the dashed token at the front stands for, itself included. */
  function OptionWidth(table: Table, tokens: seq<string>): (w: nat)
    requires tokens != []
    ensures w >= 1
  {
    var name := OptionName(tokens[0]);
    if name == tokens[0] && name in table then
      match table[name]
      case Exactly(n) => 1 + n
      case UntilDash => 1 + RunLength(tokens[1..])
    else 1
  }

  /** The rest after `w` tokens; skipping past the end leaves nothing. */
  function Skip(tokens: seq<string>, w: nat): (rest: seq<string>)
    ensures |rest| == if w <= |tokens| then |tokens| - w else 0
  {
    if w <= |tokens| then tokens[w..] else []
  }

  function Enumerate(tokens: seq<string>, at: nat): seq<(nat, string)> {
    if tokens == [] then [] else [(at, tokens[0])] + Enumerate(tokens[1..], at + 1)
  }

  /** Positionals of `tokens`, whose first token has index `at` in the whole argv. */
  function Scan(table: Table, tokens: seq<string>, at: nat): seq<(nat, string)>
    decreases |tokens|
  {
    if tokens == [] then []
    else if IsTerminator(tokens[0]) then Enumerate(tokens[1..], at + 1)
    else if Dashed(tokens[0]) then
      var w := OptionWidth(table, tokens);
      Scan(table, Skip(tokens, w), at + w)
    else [(at, tokens[0])] + Scan(table, tokens[1..], at + 1)
  }

  function Values(positionals: seq<(nat, string)>): (r: seq<string>)
    ensures |r| == |positionals|
    ensures forall k :: 0 <= k < |r| ==> r[k] == positionals[k].1
  {
    seq(|positionals|, k requires 0 <= k < |positionals| => positionals[k].1)
  }

  /** The same scan over indices into the whole argv, as the loop walks it. */
  function ScanFrom(table: Table, argv: seq<string>, index: nat): seq<(nat, string)>
    decreases |argv| - index
  {
    if index >= |argv| then []
    else if IsTerminator(argv[index]) then Enumerate(argv[index + 1..], index + 1)
    else if Dashed(argv[index]) then ScanFrom(table, argv, index + OptionWidth(table, argv[index..]))
    else [(index, argv[index])] + ScanFrom(table, argv, index + 1)
  }

  lemma {:induction false} ScanFromIsScan(table: Table, argv: seq<string>, index: nat)
    ensures ScanFrom(table, argv, index) == Scan(table, Skip(argv, index), index)
    decreases |argv| - index
  {
    if index < |argv| {
      var rest := argv[index..];
      assert rest[1..] == argv[index + 1..];
      if Dashed(argv[index]) && !IsTerminator(argv[index]) {
        var w := OptionWidth(table, rest);
        assert Skip(rest, w) == Skip(argv, index + w);
        ScanFromIsScan(table, argv, index + w);
      } else if !Dashed(argv[index]) {
        ScanFromIsScan(table, argv, index + 1);
      }
    }
  }

  /** The index loop of `_cli_positionals`; an index outside argv yields nothing. */
  method CliPositionals(table: Table, argv: seq<string>, commandIndex: int)
    returns (positionals: seq<(nat, string)>)
    ensures !(0 <= commandIndex < |argv|) ==> positionals == []
    ensures 0 <= commandIndex < |argv| ==>
              positionals == Scan(table, argv[commandIndex + 1..], commandIndex + 1)
  {
    positionals := [];
    if !(0 <= commandIndex < |argv|) {
      return;
    }
    positionals := PositionalsFrom(table, argv, commandIndex + 1);
    ScanFromIsScan(table, argv, commandIndex + 1);
  }

  method PositionalsFrom(table: Table, argv: seq<string>, start: nat)
    returns (positionals: seq<(nat, string)>)
    ensures positionals == ScanFrom(table, argv, start)
  {
    positionals := [];
    var index := start;
    ghost var todo := ScanFrom(table, argv, start);
    while index < |argv|
      invariant todo == ScanFrom(table, argv, index)
      invariant positionals + todo == ScanFrom(table, argv, start)
      decreases |argv| - index
    {
      var item := argv[index];
      if IsTerminator(item) {
        positionals := positionals + Enumerate(argv[index + 1..], index + 1);
        return;
      }
      if Dashed(item) {
        index := AfterOption(table, argv, index);
      } else {
        positionals, todo := positionals + [(index, item)], todo[1..];
        index := index + 1;
      }
    }
  }

  /** The option branch of the loop: the index after an option and the values it takes. */
  method AfterOption(table: Table, argv: seq<string>, at: nat) returns (index: nat)
    requires at < |argv| && Dashed(argv[at]) && !IsTerminator(argv[at])
    ensures at < index && ScanFrom(table, argv, index) == ScanFrom(table, argv, at)
  {
    var item := argv[at];
    var option := OptionName(item);
    index := at + 1;
    if option == item && option in table {
      match table[option] {
        case Exactly(n) =>
          index := index + n;
        case UntilDash =>
          index := EndOfRun(argv, index);
      }
    }
    assert index == at + OptionWidth(table, argv[at..]) by {
      assert argv[at..][1..] == argv[at + 1..];
    }
  }

  method EndOfRun(argv: seq<string>, start: nat) returns (index: nat)
    requires start <= |argv|
    ensures index == start + RunLength(argv[start..])
  {
    index := start;
    while index < |argv| && !Dashed(argv[index])
      invariant start <= index <= |argv|
      invariant index + RunLength(argv[index..]) == start + RunLength(argv[start..])
    {
      assert argv[index..][1..] == argv[index + 1..];
      index := index + 1;
    }
  }

  // ----- rendering -------------------------------------------------------

  /** The ways a caller can lay out one argument. */
  datatype Piece =
    | Positional(value: string)
    | Flag(token: string)
    | Assigned(option: string, value: string)
    | Fixed(option: string, values: seq<string>)
    | Group(option: string, values: seq<string>)

  /** What a caller can write as the name of an option. */
  predicate IsOptionName(name: string) {
    Dashed(name) && !IsTerminator(name) && '=' !in name
  }

  function Tokens(piece: Piece): seq<string> {
    match piece
    case Positional(value) => [value]
    case Flag(token) => [token]
    case Assigned(option, value) => [option + "=" + value]
    case Fixed(option, values) => [option] + values
    case Group(option, values) => [option] + values
  }

  /** The tokens of the pieces, then the ending: nothing, or `--` and literal tokens. */
  function Render(pieces: seq<Piece>, ending: seq<string>): (tokens: seq<string>)
    ensures tokens == [] <==> pieces == [] && ending == []
  {
    if pieces == [] then ending else Tokens(pieces[0]) + Render(pieces[1..], ending)
  }

  predicate IsEnding(ending: seq<string>) {
    ending != [] ==> IsTerminator(ending[0])
  }

  /** `last` says that no token at all follows the piece. */
  predicate Fits(table: Table, piece: Piece, last: bool) {
    match piece
    case Positional(value) => !Dashed(value)
    case Flag(token) =>
      && Dashed(token) && !IsTerminator(token)
      && (OptionName(token) !in table || IsTerminator(OptionName(token)))
    case Assigned(option, value) => IsOptionName(option) && option in table
    case Fixed(option, values) =>
      && IsOptionName(option) && option in table && table[option].Exactly?
      && (|values| == table[option].n || (last && |values| < table[option].n))
    case Group(option, values) =>
      && IsOptionName(option) && option in table && table[option].UntilDash?
      && forall v <- values :: !Dashed(v)
  }

  /** Every piece fits, and a variable group ends at an option, at `--` or at the end. */
  predicate WellFormed(table: Table, pieces: seq<Piece>, ending: seq<string>) {
    if pieces == [] then IsEnding(ending)
    else
      && Fits(table, pieces[0], |pieces| == 1 && ending == [])
      && (pieces[0].Group? && |pieces| > 1 ==> !pieces[1].Positional?)
      && WellFormed(table, pieces[1..], ending)
  }

  /** The positionals a layout contains, with the indices its rendering gives them. */
  function Expected(pieces: seq<Piece>, ending: seq<string>, at: nat): seq<(nat, string)> {
    if pieces == [] then
      if ending == [] then [] else Enumerate(ending[1..], at + 1)
    else
      Contribution(pieces[0], at) + Expected(pieces[1..], ending, at + |Tokens(pieces[0])|)
  }

  lemma {:induction false} OptionNameOfAssigned(option: string, value: string)
    requires '=' !in option
    ensures OptionName(option + "=" + value) == option
  {
    var token := option + "=" + value;
    if option == "" {
      assert token[0] == '=';
    } else {
      assert token[1..] == option[1..] + "=" + value;
      OptionNameOfAssigned(option[1..], value);
    }
  }

  lemma {:induction false} OptionNameWithoutEquals(token: string)
    requires '=' !in token
    ensures OptionName(token) == token
  {
    if token != "" {
      OptionNameWithoutEquals(token[1..]);
      assert token == [token[0]] + token[1..];
    }
  }

  lemma {:induction false} RunOfPrefix(values: seq<string>, rest: seq<string>)
    requires forall v <- values :: !Dashed(v)
    requires rest != [] ==> Dashed(rest[0])
    ensures RunLength(values + rest) == |values|
  {
    if values == [] {
      assert values + rest == rest;
    } else {
      assert (values + rest)[1..] == values[1..] + rest;
      RunOfPrefix(values[1..], rest);
    }
  }

  lemma FirstTokenDashed(table: Table, piece: Piece, last: bool)
    requires Fits(table, piece, last) && !piece.Positional?
    ensures Dashed(Tokens(piece)[0]) && !IsTerminator(Tokens(piece)[0])
  {
    if piece.Assigned? {
      assert Tokens(piece)[0][|piece.option|] == '=';
    }
  }

  /** The width of one rendered option: all its tokens, or past the end. */
  lemma {:induction false} OptionPieceWidth(table: Table, piece: Piece, rest: seq<string>)
    requires Fits(table, piece, rest == []) && !piece.Positional?
    requires piece.Group? && rest != [] ==> Dashed(rest[0])
    ensures var w := OptionWidth(table, Tokens(piece) + rest);
            w == |Tokens(piece)| || (rest == [] && w > |Tokens(piece)|)
  {
    var tokens := Tokens(piece) + rest;
    assert tokens[1..] == Tokens(piece)[1..] + rest;
    match piece {
      case Flag(token) =>
      case Assigned(option, value) =>
        OptionNameOfAssigned(option, value);
        assert tokens[0][|option|] == '=';
      case Fixed(option, values) =>
        OptionNameWithoutEquals(option);
      case Group(option, values) =>
        OptionNameWithoutEquals(option);
        RunOfPrefix(values, rest);
    }
  }

  lemma ScanOption(table: Table, front: seq<string>, rest: seq<string>, at: nat)
    requires front != [] && Dashed(front[0]) && !IsTerminator(front[0])
    requires var w := OptionWidth(table, front + rest); w == |front| || (rest == [] && w > |front|)
    ensures Scan(table, front + rest, at) == Scan(table, rest, at + |front|)
  {
    var tokens, w := front + rest, OptionWidth(table, front + rest);
    assert tokens[0] == front[0];
    assert Skip(tokens, w) == rest;
  }

  lemma ScanPositional(table: Table, value: string, rest: seq<string>, at: nat)
    requires !Dashed(value)
    ensures Scan(table, [value] + rest, at) == [(at, value)] + Scan(table, rest, at + 1)
  {
    assert ([value] + rest)[1..] == rest;
  }

  lemma RestStartsDashed(table: Table, pieces: seq<Piece>, ending: seq<string>)
    requires WellFormed(table, pieces, ending)
    requires pieces != [] ==> !pieces[0].Positional?
    ensures Render(pieces, ending) != [] ==> Dashed(Render(pieces, ending)[0])
  {
    if pieces != [] {
      FirstTokenDashed(table, pieces[0], |pieces| == 1 && ending == []);
    }
  }

  /** What one piece contributes to the positionals. */
  function Contribution(piece: Piece, at: nat): seq<(nat, string)> {
    if piece.Positional? then [(at, piece.value)] else []
  }

  /** The scanner takes one piece at a time. */
  lemma ScanPiece(table: Table, piece: Piece, rest: seq<string>, at: nat)
    requires Fits(table, piece, rest == [])
    requires piece.Group? && rest != [] ==> Dashed(rest[0])
    ensures Scan(table, Tokens(piece) + rest, at)
         == Contribution(piece, at) + Scan(table, rest, at + |Tokens(piece)|)
  {
    if piece.Positional? {
      ScanPositional(table, piece.value, rest, at);
    } else {
      FirstTokenDashed(table, piece, rest == []);
      OptionPieceWidth(table, piece, rest);
      ScanOption(table, Tokens(piece), rest, at);
    }
  }

  lemma ScanFirstPiece(table: Table, pieces: seq<Piece>, ending: seq<string>, at: nat)
    requires pieces != [] && WellFormed(table, pieces, ending)
    ensures Scan(table, Render(pieces, ending), at)
         == Contribution(pieces[0], at)
            + Scan(table, Render(pieces[1..], ending), at + |Tokens(pieces[0])|)
  {
    if pieces[0].Group? {
      RestStartsDashed(table, pieces[1..], ending);
    }
    ScanPiece(table, pieces[0], Render(pieces[1..], ending), at);
  }

  /** The scanner undoes rendering, whatever the interleaving of arguments. */
  lemma {:induction false} ScanUndoesRendering(table: Table, pieces: seq<Piece>, ending: seq<string>, at: nat)
    requires WellFormed(table, pieces, ending)
    ensures Scan(table, Render(pieces, ending), at) == Expected(pieces, ending, at)
  {
    if pieces != [] {
      ScanFirstPiece(table, pieces, ending, at);
      ScanUndoesRendering(table, pieces[1..], ending, at + |Tokens(pieces[0])|);
    }
  }

  // ----- every argv is a rendering ---------------------------------------

  function ParseOption(table: Table, tokens: seq<string>): Piece
    requires tokens != []
  {
    var item, name := tokens[0], OptionName(tokens[0]);
    if name !in table || IsTerminator(name) then Flag(item)
    else if |name| < |item| then Assigned(name, item[|name| + 1..])
    else
      var w := OptionWidth(table, tokens);
      var values := if w <= |tokens| then tokens[1..w] else tokens[1..];
      if table[name].Exactly? then Fixed(item, values) else Group(item, values)
  }

  function Parse(table: Table, tokens: seq<string>): (r: (seq<Piece>, seq<string>))
    decreases |tokens|
  {
    if tokens == [] || IsTerminator(tokens[0]) then ([], tokens)
    else if Dashed(tokens[0]) then
      var (pieces, ending) := Parse(table, Skip(tokens, OptionWidth(table, tokens)));
      ([ParseOption(table, tokens)] + pieces, ending)
    else
      var (pieces, ending) := Parse(table, tokens[1..]);
      ([Positional(tokens[0])] + pieces, ending)
  }

  lemma {:induction false} OptionNameSplits(token: string)
    ensures |OptionName(token)| <= |token| && OptionName(token) == token[..|OptionName(token)|]
    ensures '=' in token ==> |OptionName(token)| < |token| && token[|OptionName(token)|] == '='
    ensures '=' !in OptionName(token)
  {
    if token != "" && token[0] != '=' {
      OptionNameSplits(token[1..]);
      assert token == [token[0]] + token[1..];
      var name := OptionName(token[1..]);
      assert token[..1 + |name|] == [token[0]] + token[1..][..|name|];
    }
  }

  lemma ParseGroup(table: Table, tokens: seq<string>)
    requires tokens != [] && IsOptionName(tokens[0]) && tokens[0] in table && table[tokens[0]].UntilDash?
    ensures ParseOption(table, tokens) == Group(tokens[0], tokens[1..OptionWidth(table, tokens)])
    ensures var rest := Skip(tokens, OptionWidth(table, tokens));
            && (forall v <- tokens[1..OptionWidth(table, tokens)] :: !Dashed(v))
            && tokens[..OptionWidth(table, tokens)] + rest == tokens
            && (rest != [] ==> Dashed(rest[0]))
  {
    OptionNameWithoutEquals(tokens[0]);
    var n := RunLength(tokens[1..]);
    RunIsUndashed(tokens[1..]);
    assert Skip(tokens, 1 + n) == tokens[1..][n..];
    assert tokens[1..1 + n] == tokens[1..][..n];
  }

  lemma ParseValuedOption(table: Table, tokens: seq<string>)
    requires tokens != [] && IsOptionName(tokens[0]) && tokens[0] in table
    ensures var piece, rest := ParseOption(table, tokens), Skip(tokens, OptionWidth(table, tokens));
            && !piece.Positional?
            && Fits(table, piece, rest == [])
            && Tokens(piece) + rest == tokens
            && (piece.Group? && rest != [] ==> Dashed(rest[0]))
  {
    OptionNameWithoutEquals(tokens[0]);
    if table[tokens[0]].UntilDash? {
      ParseGroup(table, tokens);
      var w := OptionWidth(table, tokens);
      assert [tokens[0]] + tokens[1..w] == tokens[..w];
    }
  }

  lemma ParseOptionFits(table: Table, tokens: seq<string>)
    requires tokens != [] && Dashed(tokens[0]) && !IsTerminator(tokens[0])
    ensures var piece, rest := ParseOption(table, tokens), Skip(tokens, OptionWidth(table, tokens));
            && !piece.Positional?
            && Fits(table, piece, rest == [])
            && Tokens(piece) + rest == tokens
            && (piece.Group? && rest != [] ==> Dashed(rest[0]))
  {
    var item, name := tokens[0], OptionName(tokens[0]);
    OptionNameSplits(item);
    if '=' !in item {
      OptionNameWithoutEquals(item);
      if name in table {
        ParseValuedOption(table, tokens);
      }
    } else {
      assert item == name + "=" + item[|name| + 1..];
      assert name != "";
      assert OptionWidth(table, tokens) == 1;
      assert [item] + tokens[1..] == tokens;
    }
  }

  lemma PrependPiece(table: Table, piece: Piece, pieces: seq<Piece>, ending: seq<string>)
    requires WellFormed(table, pieces, ending) && Fits(table, piece, Render(pieces, ending) == [])
    requires piece.Group? && Render(pieces, ending) != [] ==> Dashed(Render(pieces, ending)[0])
    ensures WellFormed(table, [piece] + pieces, ending)
    ensures Render([piece] + pieces, ending) == Tokens(piece) + Render(pieces, ending)
  {
    assert ([piece] + pieces)[1..] == pieces;
    if pieces != [] {
      assert Render(pieces, ending)[0] == Tokens(pieces[0])[0];
    }
  }

  /** Every token list is a well-formed rendering, so `ScanUndoesRendering` speaks about every argv. */
  lemma {:induction false} EveryArgvIsARendering(table: Table, tokens: seq<string>)
    ensures var (pieces, ending) := Parse(table, tokens);
            && WellFormed(table, pieces, ending)
            && Render(pieces, ending) == tokens
    decreases |tokens|
  {
    if tokens != [] && !IsTerminator(tokens[0]) {
      var piece, rest := Positional(tokens[0]), tokens[1..];
      if Dashed(tokens[0]) {
        piece, rest := ParseOption(table, tokens), Skip(tokens, OptionWidth(table, tokens));
        ParseOptionFits(table, tokens);
      }
      EveryArgvIsARendering(table, rest);
      var (pieces, ending) := Parse(table, rest);
      PrependPiece(table, piece, pieces, ending);
    }
  }
}

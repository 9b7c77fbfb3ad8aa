/** Control rewrites argv between taking the session lock and authorising the session.
    Both must name the same session (`_translate_argv`, `_authorize_scope_grant_argv`). */
module Translation {
  import opened Wrappers
  import opened Argv
  import opened SessionBinding

  // ----- the session depends only on the positional values ----------------

  function FirstSessionValue(values: seq<string>): Option<string> {
    if values == [] then None
    else if IsSession(values[0]) then Some(values[0])
    else FirstSessionValue(values[1..])
  }

  /** The positional values of a layout, in order. */
  function PositionalValues(pieces: seq<Piece>): seq<string> {
    if pieces == [] then []
    else if pieces[0].Positional? then [pieces[0].value] + PositionalValues(pieces[1..])
    else PositionalValues(pieces[1..])
  }

  function LiteralValues(ending: seq<string>): seq<string> {
    if ending == [] then [] else ending[1..]
  }

  lemma {:induction false} SessionOfValues(positionals: seq<(nat, string)>)
    ensures SessionOf(FirstSession(positionals)) == FirstSessionValue(Values(positionals))
  {
    if positionals != [] {
      assert Values(positionals)[1..] == Values(positionals[1..]);
      SessionOfValues(positionals[1..]);
    }
  }

  lemma ValuesOfConcat(a: seq<(nat, string)>, b: seq<(nat, string)>)
    ensures Values(a + b) == Values(a) + Values(b)
  {
  }

  function ValuesOf(piece: Piece): seq<string> {
    if piece.Positional? then [piece.value] else []
  }

  lemma ContributionValues(piece: Piece, at: nat)
    ensures Values(Contribution(piece, at)) == ValuesOf(piece)
  {
  }

  lemma FirstPieceValues(pieces: seq<Piece>)
    requires pieces != []
    ensures PositionalValues(pieces) == ValuesOf(pieces[0]) + PositionalValues(pieces[1..])
  {
    var rest := PositionalValues(pieces[1..]);
    assert [] + rest == rest;
  }

  lemma Associates(a: seq<string>, b: seq<string>, c: seq<string>)
    ensures (a + b) + c == a + (b + c)
  {
  }

  lemma {:induction false} ExpectedValues(pieces: seq<Piece>, ending: seq<string>, at: nat)
    ensures Values(Expected(pieces, ending, at)) == PositionalValues(pieces) + LiteralValues(ending)
  {
    if pieces == [] {
      if ending != [] {
        ValuesOfEnumerate(ending[1..], at + 1);
      }
    } else {
      ExpectedValues(pieces[1..], ending, at + |Tokens(pieces[0])|);
      ValuesOfConcat(Contribution(pieces[0], at), Expected(pieces[1..], ending, at + |Tokens(pieces[0])|));
      ContributionValues(pieces[0], at);
      FirstPieceValues(pieces);
      Associates(ValuesOf(pieces[0]), PositionalValues(pieces[1..]), LiteralValues(ending));
    }
  }

  /** The session of a rendered argument list is the first session among its positional values. */
  lemma SessionOfLayout(table: Table, pieces: seq<Piece>, ending: seq<string>, at: nat)
    requires WellFormed(table, pieces, ending)
    ensures SessionOf(FirstSession(Scan(table, Render(pieces, ending), at)))
         == FirstSessionValue(PositionalValues(pieces) + LiteralValues(ending))
  {
    ScanUndoesRendering(table, pieces, ending, at);
    SessionOfValues(Expected(pieces, ending, at));
    ExpectedValues(pieces, ending, at);
  }

  /** The session that the scanner finds, without its index. */
  function Found(table: Table, tokens: seq<string>): Option<string>
    decreases |tokens|
  {
    if tokens == [] then None
    else if IsTerminator(tokens[0]) then FirstSessionValue(tokens[1..])
    else if Dashed(tokens[0]) then Found(table, Skip(tokens, OptionWidth(table, tokens)))
    else if IsSession(tokens[0]) then Some(tokens[0])
    else Found(table, tokens[1..])
  }

  /** `Found` is what the scan finds. */
  predicate Finds(table: Table, tokens: seq<string>, at: nat) {
    SessionOf(FirstSession(Scan(table, tokens, at))) == Found(table, tokens)
  }

  lemma FindsLiterals(table: Table, tokens: seq<string>, at: nat)
    requires tokens != [] && IsTerminator(tokens[0])
    ensures Finds(table, tokens, at)
  {
    SessionOfValues(Enumerate(tokens[1..], at + 1));
    ValuesOfEnumerate(tokens[1..], at + 1);
  }

  lemma {:induction false} FindsAfterOption(table: Table, tokens: seq<string>, at: nat)
    requires tokens != [] && Dashed(tokens[0]) && !IsTerminator(tokens[0])
    ensures Finds(table, tokens, at)
    decreases |tokens|, 0
  {
    var w := OptionWidth(table, tokens);
    FoundIsSession(table, Skip(tokens, w), at + w);
  }

  lemma {:induction false} FindsAfterWord(table: Table, tokens: seq<string>, at: nat)
    requires tokens != [] && !Dashed(tokens[0])
    ensures Finds(table, tokens, at)
    decreases |tokens|, 0
  {
    FoundIsSession(table, tokens[1..], at + 1);
  }

  lemma {:induction false} FoundIsSession(table: Table, tokens: seq<string>, at: nat)
    ensures Finds(table, tokens, at)
    decreases |tokens|, 1
  {
    if tokens != [] {
      if IsTerminator(tokens[0]) {
        FindsLiterals(table, tokens, at);
      } else if Dashed(tokens[0]) {
        FindsAfterOption(table, tokens, at);
      } else {
        FindsAfterWord(table, tokens, at);
      }
    }
  }

  /** Tokens behind the list are read after all of it, at most as values of its last option. */
  lemma {:induction false} FoundAppended(table: Table, tokens: seq<string>, more: seq<string>)
    requires forall t <- more :: !IsSession(t)
    ensures Found(table, tokens + more) == Found(table, tokens)
    decreases |tokens|
  {
    var all := tokens + more;
    if tokens == [] {
      assert all == more;
      NothingFound(table, more);
    } else {
      assert all[0] == tokens[0] && all[1..] == tokens[1..] + more;
      if IsTerminator(tokens[0]) {
        FirstValueAppended(tokens[1..], more);
      } else if Dashed(tokens[0]) {
        OptionBeforeAppended(table, tokens, more);
      } else {
        FoundAppended(table, tokens[1..], more);
      }
    }
  }

  lemma {:induction false} OptionBeforeAppended(table: Table, tokens: seq<string>, more: seq<string>)
    requires forall t <- more :: !IsSession(t)
    requires tokens != [] && Dashed(tokens[0]) && !IsTerminator(tokens[0])
    ensures Found(table, tokens + more) == Found(table, tokens)
    decreases |tokens|, 0
  {
    var all := tokens + more;
    var w, v := OptionWidth(table, tokens), OptionWidth(table, all);
    assert all[1..] == tokens[1..] + more;
    RunAppended(tokens[1..], more);
    if w < |tokens| {
      assert v == w && all[w..] == tokens[w..] + more;
      FoundAppended(table, tokens[w..], more);
    } else {
      assert v >= |tokens|;
      var rest := Skip(all, v);
      assert rest == Skip(more, v - |tokens|);
      NothingFound(table, rest);
    }
  }

  lemma {:induction false} RunAppended(tokens: seq<string>, more: seq<string>)
    ensures RunLength(tokens) < |tokens| ==> RunLength(tokens + more) == RunLength(tokens)
    ensures RunLength(tokens) == |tokens| ==> RunLength(tokens + more) >= |tokens|
  {
    if tokens != [] {
      assert (tokens + more)[1..] == tokens[1..] + more;
      RunAppended(tokens[1..], more);
    }
  }

  lemma {:induction false} FirstValueAppended(tokens: seq<string>, more: seq<string>)
    requires forall t <- more :: !IsSession(t)
    ensures FirstSessionValue(tokens + more) == FirstSessionValue(tokens)
  {
    if tokens == [] {
      assert tokens + more == more;
      NothingLiteral(more);
    } else {
      assert (tokens + more)[1..] == tokens[1..] + more;
      FirstValueAppended(tokens[1..], more);
    }
  }

  lemma {:induction false} NothingLiteral(tokens: seq<string>)
    requires forall t <- tokens :: !IsSession(t)
    ensures FirstSessionValue(tokens) == None
  {
    if tokens != [] {
      NothingLiteral(tokens[1..]);
    }
  }

  lemma {:induction false} NothingFound(table: Table, tokens: seq<string>)
    requires forall t <- tokens :: !IsSession(t)
    ensures Found(table, tokens) == None
    decreases |tokens|
  {
    if tokens != [] {
      if IsTerminator(tokens[0]) {
        NothingLiteral(tokens[1..]);
      } else if Dashed(tokens[0]) {
        NothingFound(table, Skip(tokens, OptionWidth(table, tokens)));
      } else {
        NothingFound(table, tokens[1..]);
      }
    }
  }

  /** No option takes a dashed token as its value. */
  predicate PlainValues(table: Table, tokens: seq<string>)
    decreases |tokens|
  {
    if tokens == [] || IsTerminator(tokens[0]) then true
    else if Dashed(tokens[0]) then
      var w := OptionWidth(table, tokens);
      && (forall k :: 1 <= k < w && k < |tokens| ==> !Dashed(tokens[k]))
      && PlainValues(table, Skip(tokens, w))
    else PlainValues(table, tokens[1..])
  }

  lemma {:induction false} PlainPieces(table: Table, tokens: seq<string>)
    requires PlainValues(table, tokens)
    ensures forall piece <- Parse(table, tokens).0 :: piece.Fixed? ==> forall v <- piece.values :: !Dashed(v)
    decreases |tokens|
  {
    if tokens != [] && !IsTerminator(tokens[0]) {
      if Dashed(tokens[0]) {
        PlainPieces(table, Skip(tokens, OptionWidth(table, tokens)));
      } else {
        PlainPieces(table, tokens[1..]);
      }
    }
  }

  // ----- mapping the paths of one option -----------------------------------

  /** No token of the piece is mistaken for the mapped option: a foreign option's own values. */
  predicate PieceApart(option: string, piece: Piece) {
    piece.Fixed? && piece.option != option ==> forall v <- piece.values :: !Resembles(v, option)
  }

  /** Nothing but genuine occurrences of the option looks like it. */
  predicate Apart(option: string, pieces: seq<Piece>, ending: seq<string>) {
    && (forall piece <- pieces :: PieceApart(option, piece))
    && (forall t <- ending :: !Resembles(t, option))
  }

  function MapPiece(option: string, f: PathMap, piece: Piece): Piece {
    match piece
    case Assigned(o, v) => if o == option && f(v).Some? then Assigned(o, f(v).value) else piece
    case Fixed(o, vs) =>
      if o == option && |vs| == 1 && f(vs[0]).Some? then Fixed(o, [f(vs[0]).value]) else piece
    case _ => piece
  }

  function MapPieces(option: string, f: PathMap, pieces: seq<Piece>): (r: seq<Piece>)
    ensures |r| == |pieces|
  {
    if pieces == [] then [] else [MapPiece(option, f, pieces[0])] + MapPieces(option, f, pieces[1..])
  }

  lemma ResemblingIsDashed(token: string, option: string)
    requires IsOptionName(option)
    ensures Resembles(token, option) ==> Dashed(token) && OptionName(token) == option
  {
    if token == option {
      OptionNameWithoutEquals(token);
    } else if Assigns(token, option) {
      assert token == option + "=" + token[|option| + 1..];
      OptionNameOfAssigned(option, token[|option| + 1..]);
    }
  }

  lemma MapCopiesOne(option: string, f: PathMap, token: string, rest: seq<string>)
    requires !Resembles(token, option)
    ensures MapAccepts(option, f, [token] + rest) == MapAccepts(option, f, rest)
    ensures MapAccepts(option, f, rest) ==>
              MapOption(option, f, [token] + rest) == [token] + MapOption(option, f, rest)
  {
    assert ([token] + rest)[1..] == rest;
  }

  /** Tokens that do not resemble the option are copied. */
  lemma {:induction false} MapCopies(option: string, f: PathMap, front: seq<string>, rest: seq<string>)
    requires forall t <- front :: !Resembles(t, option)
    ensures MapAccepts(option, f, front + rest) == MapAccepts(option, f, rest)
    ensures MapAccepts(option, f, rest) ==>
              MapOption(option, f, front + rest) == front + MapOption(option, f, rest)
  {
    if front == [] {
      assert front + rest == rest;
    } else {
      assert front + rest == [front[0]] + (front[1..] + rest);
      MapCopiesOne(option, f, front[0], front[1..] + rest);
      MapCopies(option, f, front[1..], rest);
    }
  }

  lemma CopiedPiece(table: Table, option: string, piece: Piece, last: bool)
    requires IsOptionName(option) && option in table && table[option] == Exactly(1)
    requires Fits(table, piece, last) && PieceApart(option, piece)
    requires !(piece.Assigned? || piece.Fixed?) || piece.option != option
    ensures forall t <- Tokens(piece) :: !Resembles(t, option)
  {
    match piece {
      case Positional(_) => ResemblingIsDashed(piece.value, option);
      case Flag(token) => ResemblingIsDashed(token, option);
      case Assigned(o, v) =>
        ResemblingIsDashed(o + "=" + v, option);
        OptionNameOfAssigned(o, v);
      case Fixed(o, vs) =>
        ResemblingIsDashed(o, option);
        OptionNameWithoutEquals(o);
      case Group(o, vs) =>
        ResemblingIsDashed(o, option);
        OptionNameWithoutEquals(o);
        forall k | 0 <= k < |vs| ensures !Resembles(vs[k], option) {
          ResemblingIsDashed(vs[k], option);
        }
    }
  }

  lemma MappedPiece(table: Table, option: string, f: PathMap, piece: Piece, rest: seq<string>)
    requires IsOptionName(option) && option in table && table[option] == Exactly(1)
    requires Fits(table, piece, rest == []) && PieceApart(option, piece)
    requires MapAccepts(option, f, Tokens(piece) + rest)
    ensures MapAccepts(option, f, rest)
    ensures MapOption(option, f, Tokens(piece) + rest)
         == Tokens(MapPiece(option, f, piece)) + MapOption(option, f, rest)
  {
    var tokens := Tokens(piece) + rest;
    if piece.Assigned? && piece.option == option {
      assert tokens[0] == option + "=" + piece.value && tokens[1..] == rest;
      assert tokens[0][|option|] == '=';
      assert tokens[0][|option| + 1..] == piece.value;
    } else if piece.Fixed? && piece.option == option {
      if |piece.values| == 1 {
        assert tokens[1] == piece.values[0] && tokens[2..] == rest;
      }
    } else {
      CopiedPiece(table, option, piece, rest == []);
      MapCopies(option, f, Tokens(piece), rest);
    }
  }

  lemma {:induction false} MapIsPiecewise(
      table: Table, option: string, f: PathMap, pieces: seq<Piece>, ending: seq<string>)
    requires IsOptionName(option) && option in table && table[option] == Exactly(1)
    requires WellFormed(table, pieces, ending) && Apart(option, pieces, ending)
    requires MapAccepts(option, f, Render(pieces, ending))
    ensures var mapped := MapPieces(option, f, pieces);
            && MapOption(option, f, Render(pieces, ending)) == Render(mapped, ending)
            && WellFormed(table, mapped, ending)
            && PositionalValues(mapped) == PositionalValues(pieces)
  {
    if pieces == [] {
      MapCopies(option, f, ending, []);
      assert ending + [] == ending;
    } else {
      var piece := pieces[0];
      assert piece in pieces;
      MappedPiece(table, option, f, piece, Render(pieces[1..], ending));
      MapIsPiecewise(table, option, f, pieces[1..], ending);
    }
  }

  /** Rewriting the values of a path option leaves the selected session alone, provided nothing
      else in argv looks like that option. */
  lemma MappingKeepsSession(table: Table, option: string, f: PathMap, tokens: seq<string>, at: nat)
    requires IsOptionName(option) && option in table && table[option] == Exactly(1)
    requires var (pieces, ending) := Parse(table, tokens); Apart(option, pieces, ending)
    requires MapAccepts(option, f, tokens)
    ensures SessionOf(FirstSession(Scan(table, MapOption(option, f, tokens), at)))
         == SessionOf(FirstSession(Scan(table, tokens, at)))
  {
    var (pieces, ending) := Parse(table, tokens);
    EveryArgvIsARendering(table, tokens);
    MapIsPiecewise(table, option, f, pieces, ending);
    SessionOfLayout(table, pieces, ending, at);
    SessionOfLayout(table, MapPieces(option, f, pieces), ending, at);
  }

  // ----- dropping and appending options ------------------------------------

  /** A token that the removal loop of scope admission drops. */
  predicate Drops(names: set<string>, token: string) {
    exists name <- names :: Assigns(token, name)
  }

  /** The removal loop: a dropped name takes the next token with it. */
  function RemoveOptions(names: set<string>, tokens: seq<string>): seq<string>
    decreases |tokens|
  {
    if tokens == [] then []
    else if tokens[0] in names then RemoveOptions(names, Skip(tokens, 2))
    else if Drops(names, tokens[0]) then RemoveOptions(names, tokens[1..])
    else [tokens[0]] + RemoveOptions(names, tokens[1..])
  }

  method RemoveOptionsLoop(names: set<string>, argv: seq<string>) returns (forwarded: seq<string>)
    ensures forwarded == RemoveOptions(names, argv)
  {
    forwarded := [];
    var index := 0;
    ghost var todo := argv;
    while index < |argv|
      invariant todo == Skip(argv, index)
      invariant forwarded + RemoveOptions(names, todo) == RemoveOptions(names, argv)
      decreases |argv| - index
    {
      var item := argv[index];
      assert todo == [item] + argv[index + 1..];
      if item in names {
        todo := Skip(todo, 2);
        index := index + 2;
        continue;
      }
      if !Drops(names, item) {
        forwarded := forwarded + [item];
      }
      todo := todo[1..];
      index := index + 1;
    }
  }

  predicate IsDropped(names: set<string>, piece: Piece) {
    (piece.Assigned? || piece.Fixed?) && piece.option in names
  }

  /** No value of a kept piece is mistaken for a dropped option. */
  predicate Clear(names: set<string>, piece: Piece) {
    !IsDropped(names, piece) ==> forall name <- names :: PieceApart(name, piece)
  }

  lemma ClearTokens(table: Table, names: set<string>, piece: Piece)
    requires forall name <- names :: IsOptionName(name) && name in table && table[name] == Exactly(1)
    requires Fits(table, piece, false) && !IsDropped(names, piece) && Clear(names, piece)
    ensures forall t <- Tokens(piece) :: t !in names && !Drops(names, t)
  {
    forall name <- names ensures forall t <- Tokens(piece) :: !Resembles(t, name) {
      CopiedPiece(table, name, piece, false);
    }
  }

  function Kept(names: set<string>, pieces: seq<Piece>): seq<Piece> {
    if pieces == [] then []
    else if IsDropped(names, pieces[0]) then Kept(names, pieces[1..])
    else [pieces[0]] + Kept(names, pieces[1..])
  }

  /** Every option has all its values, so anything may follow. */
  predicate Complete(table: Table, pieces: seq<Piece>) {
    forall piece <- pieces :: Fits(table, piece, false) && !piece.Group?
  }

  lemma {:induction false} RemoveCopies(names: set<string>, front: seq<string>, rest: seq<string>)
    requires forall t <- front :: t !in names && !Drops(names, t)
    ensures RemoveOptions(names, front + rest) == front + RemoveOptions(names, rest)
  {
    if front == [] {
      assert front + rest == rest;
    } else {
      assert front + rest == [front[0]] + (front[1..] + rest);
      RemoveCopies(names, front[1..], rest);
      assert RemoveOptions(names, [front[0]] + (front[1..] + rest))
          == [front[0]] + RemoveOptions(names, front[1..] + rest) by {
        assert ([front[0]] + (front[1..] + rest))[1..] == front[1..] + rest;
        assert front[0] in front;
      }
    }
  }

  lemma RemovePiece(table: Table, names: set<string>, piece: Piece, rest: seq<string>)
    requires forall name <- names :: IsOptionName(name) && name in table && table[name] == Exactly(1)
    requires Fits(table, piece, false) && !piece.Group? && Clear(names, piece)
    ensures RemoveOptions(names, Tokens(piece) + rest)
         == if IsDropped(names, piece) then RemoveOptions(names, rest)
            else Tokens(piece) + RemoveOptions(names, rest)
  {
    var tokens := Tokens(piece) + rest;
    if !IsDropped(names, piece) {
      ClearTokens(table, names, piece);
      RemoveCopies(names, Tokens(piece), rest);
    } else if piece.Fixed? {
      assert |piece.values| == 1 && Skip(tokens, 2) == rest;
    } else {
      OptionNameOfAssigned(piece.option, piece.value);
      assert tokens[0][|piece.option|] == '=' && tokens[0][..|piece.option|] == piece.option;
      assert tokens[1..] == rest;
      assert '=' in tokens[0];
    }
  }

  lemma RenderCons(piece: Piece, rest: seq<Piece>)
    ensures Render([piece] + rest, []) == Tokens(piece) + Render(rest, [])
  {
    assert ([piece] + rest)[1..] == rest;
  }

  lemma {:induction false} RemovalIsPiecewise(table: Table, names: set<string>, pieces: seq<Piece>)
    requires forall name <- names :: IsOptionName(name) && name in table && table[name] == Exactly(1)
    requires Complete(table, pieces) && forall piece <- pieces :: Clear(names, piece)
    ensures RemoveOptions(names, Render(pieces, [])) == Render(Kept(names, pieces), [])
  {
    if pieces != [] {
      var piece := pieces[0];
      assert piece in pieces;
      RemovalIsPiecewise(table, names, pieces[1..]);
      RemovePiece(table, names, piece, Render(pieces[1..], []));
      RenderCons(piece, Kept(names, pieces[1..]));
    }
  }

  lemma {:induction false} KeptPositionals(names: set<string>, pieces: seq<Piece>)
    ensures PositionalValues(Kept(names, pieces)) == PositionalValues(pieces)
    ensures forall piece <- Kept(names, pieces) :: piece in pieces
  {
    if pieces != [] {
      KeptPositionals(names, pieces[1..]);
      var rest := Kept(names, pieces[1..]);
      assert ([pieces[0]] + rest)[1..] == rest;
    }
  }

  lemma {:induction false} RenderConcat(a: seq<Piece>, b: seq<Piece>)
    ensures Render(a + b, []) == Render(a, []) + Render(b, [])
    ensures PositionalValues(a + b) == PositionalValues(a) + PositionalValues(b)
  {
    if a == [] {
      assert a + b == b;
    } else {
      assert (a + b)[1..] == a[1..] + b;
      RenderConcat(a[1..], b);
    }
  }

  lemma {:induction false} CompleteIsWellFormed(table: Table, pieces: seq<Piece>)
    requires Complete(table, pieces)
    ensures WellFormed(table, pieces, [])
  {
    if pieces != [] {
      assert pieces[0] in pieces;
      CompleteIsWellFormed(table, pieces[1..]);
    }
  }

  /** Dropping options and appending others leaves the selected session alone. */
  lemma ForwardingKeepsSession(
      table: Table, names: set<string>, pieces: seq<Piece>, appended: seq<Piece>, at: nat)
    requires forall name <- names :: IsOptionName(name) && name in table && table[name] == Exactly(1)
    requires Complete(table, pieces) && forall piece <- pieces :: Clear(names, piece)
    requires Complete(table, appended) && PositionalValues(appended) == []
    ensures SessionOf(FirstSession(
              Scan(table, RemoveOptions(names, Render(pieces, [])) + Render(appended, []), at)))
         == SessionOf(FirstSession(Scan(table, Render(pieces, []), at)))
  {
    var kept := Kept(names, pieces);
    RemovalIsPiecewise(table, names, pieces);
    KeptPositionals(names, pieces);
    RenderConcat(kept, appended);
    CompleteIsWellFormed(table, pieces);
    CompleteIsWellFormed(table, kept + appended);
    SessionOfLayout(table, pieces, [], at);
    SessionOfLayout(table, kept + appended, [], at);
    assert PositionalValues(pieces) + [] == PositionalValues(pieces);
  }
}

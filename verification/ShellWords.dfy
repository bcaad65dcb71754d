/** The command tokenizer in front of the SCP server, and the quoting language it accepts. */
module ShellWords {
  import opened Prelude

  const QUOTE: char := '\''
  const DOUBLE: char := '\"'
  const ESCAPE: char := '\\'

  datatype Quote = Plain | Single | Double

  /** The loop variables of the tokenizer. */
  datatype Scan = Scan(tokens: seq<string>, current: string, quote: Quote, escaped: bool, started: bool)

  const INITIAL := Scan([], "", Plain, false, false)

  predicate IsSeparator(c: char) {
    c == ' ' || c == '\t' || c == '\r' || c == '\n'
  }

  function Flush(s: Scan): Scan {
    if s.started then s.(tokens := s.tokens + [s.current], current := "", started := false) else s
  }

  function Put(s: Scan, c: char): Scan {
    s.(current := s.current + [c], started := true)
  }

  function Next(s: Scan, c: char): Scan {
    if s.escaped then Put(s, c).(escaped := false)
    else match s.quote
      case Single => if c == QUOTE then s.(quote := Plain, started := true) else Put(s, c)
      case Double =>
        if c == DOUBLE then s.(quote := Plain, started := true)
        else if c == ESCAPE then s.(escaped := true, started := true)
        else Put(s, c)
      case Plain =>
        if c == ESCAPE then s.(escaped := true, started := true)
        else if c == QUOTE then s.(quote := Single, started := true)
        else if c == DOUBLE then s.(quote := Double, started := true)
        else if IsSeparator(c) then Flush(s)
        else Put(s, c)
  }

  function ScanAll(s: Scan, input: string): Scan
    decreases input
  {
    if input == "" then s else ScanAll(Next(s, input[0]), input[1..])
  }

  function Finish(s: Scan): Option<seq<string>> {
    if s.escaped || s.quote != Plain then None else Some(Flush(s).tokens)
  }

  function Split(input: string): Option<seq<string>> {
    Finish(ScanAll(INITIAL, input))
  }

  /** splitShellCommand. */
  method SplitShellCommand(input: string) returns (result: Option<seq<string>>)
    ensures result == Split(input)
  {
    var tokens: seq<string> := [];
    var current := "";
    var quote := Plain;
    var escaped := false;
    var started := false;
    for i := 0 to |input|
      invariant ScanAll(INITIAL, input) == ScanAll(Scan(tokens, current, quote, escaped, started), input[i..])
    {
      var c := input[i];
      assert input[i..][0] == c && input[i..][1..] == input[i + 1..];
      if escaped {
        current := current + [c];
        escaped := false;
        started := true;
        continue;
      }
      if quote == Single {
        if c == QUOTE {
          quote := Plain;
        } else {
          current := current + [c];
        }
        started := true;
        continue;
      }
      if quote == Double {
        if c == DOUBLE {
          quote := Plain;
        } else if c == ESCAPE {
          escaped := true;
        } else {
          current := current + [c];
        }
        started := true;
        continue;
      }
      if c == ESCAPE {
        escaped := true;
        started := true;
      } else if c == QUOTE || c == DOUBLE {
        quote := if c == QUOTE then Single else Double;
        started := true;
      } else if IsSeparator(c) {
        if started {
          tokens := tokens + [current];
          current := "";
          started := false;
        }
      } else {
        current := current + [c];
        started := true;
      }
    }
    assert input[|input|..] == "";
    if escaped || quote != Plain {
      return None;
    }
    if started {
      tokens := tokens + [current];
    }
    return Some(tokens);
  }

  lemma {:induction false} ScanConcat(s: Scan, a: string, b: string)
    ensures ScanAll(s, a + b) == ScanAll(ScanAll(s, a), b)
    decreases a
  {
    if a == "" {
      assert a + b == b;
    } else {
      assert (a + b)[1..] == a[1..] + b;
      ScanConcat(Next(s, a[0]), a[1..], b);
    }
  }

  lemma ScanOne(s: Scan, c: char)
    ensures ScanAll(s, [c]) == Next(s, c)
  {
    assert ScanAll(s, [c]) == ScanAll(Next(s, c), [c][1..]);
  }

  // ---- The language: what a well-formed command is, and what it means ----

  /** A command is a sequence of pieces; each piece is complete in itself. */
  datatype Piece =
    | Blank(c: char)                 // an unquoted separator
    | Bare(c: char)                  // an unquoted ordinary character
    | Escaped(c: char)               // a backslash and any character
    | Literal(text: string)          // '...'
    | Quoted(items: seq<Item>)       // "..."

  datatype Item = Char(c: char) | EscapedChar(c: char)

  predicate ItemOk(i: Item) {
    i.Char? ==> i.c != '\"' && i.c != '\\'
  }

  predicate PieceOk(p: Piece) {
    match p
    case Blank(c) => c == ' ' || c == '\t' || c == '\r' || c == '\n'
    case Bare(c) => c != ' ' && c != '\t' && c != '\r' && c != '\n' && c != '\'' && c != '\"' && c != '\\'
    case Escaped(_) => true
    case Literal(text) => '\'' !in text
    case Quoted(items) => forall i | 0 <= i < |items| :: ItemOk(items[i])
  }

  predicate WellFormed(ps: seq<Piece>) {
    forall i | 0 <= i < |ps| :: PieceOk(ps[i])
  }

  function ItemText(i: Item): string {
    if i.Char? then [i.c] else ['\\', i.c]
  }

  function ItemsText(items: seq<Item>): string {
    if items == [] then "" else ItemText(items[0]) + ItemsText(items[1..])
  }

  function ItemsMeaning(items: seq<Item>): string {
    if items == [] then "" else [items[0].c] + ItemsMeaning(items[1..])
  }

  function PieceText(p: Piece): string {
    match p
    case Blank(c) => [c]
    case Bare(c) => [c]
    case Escaped(c) => ['\\', c]
    case Literal(text) => ['\''] + text + ['\'']
    case Quoted(items) => ['\"'] + ItemsText(items) + ['\"']
  }

  function Text(ps: seq<Piece>): string {
    if ps == [] then "" else PieceText(ps[0]) + Text(ps[1..])
  }

  function PieceMeaning(p: Piece): string {
    match p
    case Blank(_) => ""
    case Bare(c) => [c]
    case Escaped(c) => [c]
    case Literal(text) => text
    case Quoted(items) => ItemsMeaning(items)
  }

  /** The words: maximal runs of pieces that are not blank. `word` is the run being read. */
  function Words(ps: seq<Piece>, word: Option<string>): seq<string> {
    if ps == [] then (if word.Some? then [word.value] else [])
    else if ps[0].Blank? then (if word.Some? then [word.value] else []) + Words(ps[1..], None)
    else
      var head := if word.Some? then word.value else "";
      Words(ps[1..], Some(head + PieceMeaning(ps[0])))
  }

  function Meaning(ps: seq<Piece>): seq<string> {
    Words(ps, None)
  }

  // ---- Every well-formed command is split as it means ----

  function Doing(tokens: seq<string>, word: Option<string>): Scan {
    Scan(tokens, if word.Some? then word.value else "", Plain, false, word.Some?)
  }

  lemma {:induction false} ScanLiteral(s: Scan, text: string)
    requires s.quote == Single && !s.escaped && s.started && QUOTE !in text
    ensures ScanAll(s, text) == s.(current := s.current + text)
    decreases text
  {
    if text == "" {
      assert s.current + text == s.current;
    } else {
      ScanLiteral(Put(s, text[0]), text[1..]);
      assert s.current + [text[0]] + text[1..] == s.current + text;
    }
  }

  lemma ScanNothing(s: Scan)
    ensures ScanAll(s, "") == s
  {
  }

  lemma ScanItem(s: Scan, i: Item)
    requires s.quote == Double && !s.escaped && s.started && ItemOk(i)
    ensures ScanAll(s, ItemText(i)) == Put(s, i.c)
  {
    if i.Char? {
      ScanOne(s, i.c);
    } else {
      ScanTwo(s, ESCAPE, i.c);
    }
  }

  lemma {:induction false} ScanItems(s: Scan, items: seq<Item>)
    requires s.quote == Double && !s.escaped && s.started
    requires forall i | 0 <= i < |items| :: ItemOk(items[i])
    ensures ScanAll(s, ItemsText(items)) == s.(current := s.current + ItemsMeaning(items))
    decreases items
  {
    hide ScanAll, Next, ItemText;
    if items == [] {
      ScanNothing(s);
      assert s.current + "" == s.current;
    } else {
      ScanConcat(s, ItemText(items[0]), ItemsText(items[1..]));
      ScanItem(s, items[0]);
      ScanItems(Put(s, items[0].c), items[1..]);
      assert s.current + [items[0].c] + ItemsMeaning(items[1..]) == s.current + ItemsMeaning(items);
    }
  }

  lemma ScanTwo(s: Scan, a: char, b: char)
    ensures ScanAll(s, [a, b]) == Next(Next(s, a), b)
  {
    ScanConcat(s, [a], [b]);
    ScanOne(s, a);
    ScanOne(Next(s, a), b);
    assert [a, b] == [a] + [b];
  }

  lemma ScanDelimited(s: Scan, open: char, body: string, close: char)
    ensures ScanAll(s, [open] + body + [close]) == Next(ScanAll(Next(s, open), body), close)
  {
    ScanConcat(s, [open] + body, [close]);
    ScanConcat(s, [open], body);
    ScanOne(s, open);
    ScanOne(ScanAll(Next(s, open), body), close);
  }

  lemma ScanPiece(tokens: seq<string>, word: Option<string>, p: Piece)
    requires PieceOk(p)
    ensures ScanAll(Doing(tokens, word), PieceText(p)) ==
            if p.Blank? then Doing(tokens + (if word.Some? then [word.value] else []), None)
            else Doing(tokens, Some((if word.Some? then word.value else "") + PieceMeaning(p)))
  {
    var s := Doing(tokens, word);
    match p
    case Blank(c) =>
      ScanOne(s, c);
      assert tokens + [] == tokens;
    case Bare(c) => ScanOne(s, c);
    case Escaped(c) => ScanTwo(s, ESCAPE, c);
    case Literal(text) =>
      ScanDelimited(s, QUOTE, text, QUOTE);
      ScanLiteral(Next(s, QUOTE), text);
    case Quoted(items) =>
      ScanDelimited(s, DOUBLE, ItemsText(items), DOUBLE);
      ScanItems(Next(s, DOUBLE), items);
  }

  lemma {:induction false} ScanPieces(tokens: seq<string>, word: Option<string>, ps: seq<Piece>)
    requires WellFormed(ps)
    ensures Finish(ScanAll(Doing(tokens, word), Text(ps))) == Some(tokens + Words(ps, word))
    decreases ps
  {
    hide ScanAll, Next, PieceText, PieceMeaning, PieceOk;
    if ps == [] {
      ScanNothing(Doing(tokens, word));
      assert tokens + [] == tokens;
    } else {
      ScanConcat(Doing(tokens, word), PieceText(ps[0]), Text(ps[1..]));
      ScanPiece(tokens, word, ps[0]);
      if ps[0].Blank? {
        var done := if word.Some? then [word.value] else [];
        ScanPieces(tokens + done, None, ps[1..]);
        assert tokens + done + Words(ps[1..], None) == tokens + (done + Words(ps[1..], None));
      } else {
        ScanPieces(tokens, Some((if word.Some? then word.value else "") + PieceMeaning(ps[0])), ps[1..]);
      }
    }
  }

  lemma SplitMeans(ps: seq<Piece>)
    requires WellFormed(ps)
    ensures Split(Text(ps)) == Some(Meaning(ps))
  {
    ScanPieces([], None, ps);
    assert [] + Words(ps, None) == Words(ps, None);
  }

  // ---- Everything that is split is well formed ----

  lemma TextSnoc(ps: seq<Piece>, p: Piece)
    ensures Text(ps + [p]) == Text(ps) + PieceText(p)
    decreases ps
  {
    if ps == [] {
      assert ps + [p] == [p] && [p][1..] == [];
    } else {
      assert (ps + [p])[1..] == ps[1..] + [p];
      TextSnoc(ps[1..], p);
    }
  }

  lemma ItemsSnoc(items: seq<Item>, i: Item)
    ensures ItemsText(items + [i]) == ItemsText(items) + ItemText(i)
    decreases items
  {
    if items == [] {
      assert items + [i] == [i] && [i][1..] == [];
    } else {
      assert (items + [i])[1..] == items[1..] + [i];
      ItemsSnoc(items[1..], i);
    }
  }

  /** A partial parse: complete pieces, and the piece that is still open. */
  datatype Open = Closed | AfterEscape | InLiteral(text: string) | InQuoted(items: seq<Item>) | InQuotedEscape(items: seq<Item>)

  predicate OpenOk(o: Open) {
    match o
    case InLiteral(text) => QUOTE !in text
    case InQuoted(items) => forall i | 0 <= i < |items| :: ItemOk(items[i])
    case InQuotedEscape(items) => forall i | 0 <= i < |items| :: ItemOk(items[i])
    case _ => true
  }

  function OpenText(o: Open): string {
    match o
    case Closed => ""
    case AfterEscape => [ESCAPE]
    case InLiteral(text) => [QUOTE] + text
    case InQuoted(items) => [DOUBLE] + ItemsText(items)
    case InQuotedEscape(items) => [DOUBLE] + ItemsText(items) + [ESCAPE]
  }

  predicate Mirrors(s: Scan, o: Open) {
    match o
    case Closed => !s.escaped && s.quote == Plain
    case AfterEscape => s.escaped && s.quote == Plain
    case InLiteral(_) => !s.escaped && s.quote == Single
    case InQuoted(_) => !s.escaped && s.quote == Double
    case InQuotedEscape(_) => s.escaped && s.quote == Double
  }

  /** Read one more character into a partial parse. */
  function Extend(ps: seq<Piece>, o: Open, c: char): (seq<Piece>, Open) {
    match o
    case Closed =>
      if c == ESCAPE then (ps, AfterEscape)
      else if c == QUOTE then (ps, InLiteral(""))
      else if c == DOUBLE then (ps, InQuoted([]))
      else if IsSeparator(c) then (ps + [Blank(c)], Closed)
      else (ps + [Bare(c)], Closed)
    case AfterEscape => (ps + [Escaped(c)], Closed)
    case InLiteral(text) => if c == QUOTE then (ps + [Literal(text)], Closed) else (ps, InLiteral(text + [c]))
    case InQuoted(items) =>
      if c == DOUBLE then (ps + [Quoted(items)], Closed)
      else if c == ESCAPE then (ps, InQuotedEscape(items))
      else (ps, InQuoted(items + [Char(c)]))
    case InQuotedEscape(items) => (ps, InQuoted(items + [EscapedChar(c)]))
  }

  lemma ExtendMirrors(s: Scan, ps: seq<Piece>, o: Open, c: char)
    requires WellFormed(ps) && OpenOk(o) && Mirrors(s, o)
    ensures var (ps', o') := Extend(ps, o, c);
            WellFormed(ps') && OpenOk(o') && Mirrors(Next(s, c), o')
  {
  }

  lemma ExtendText(ps: seq<Piece>, o: Open, c: char)
    ensures var (ps', o') := Extend(ps, o, c);
            Text(ps') + OpenText(o') == Text(ps) + OpenText(o) + [c]
  {
    hide Text, ItemsText;
    var (ps', o') := Extend(ps, o, c);
    if ps' != ps {
      TextSnoc(ps, ps'[|ps|]);
      assert ps' == ps + [ps'[|ps|]];
    }
    ItemsTextNothing();
    match o
    case InQuoted(items) => ItemsSnoc(items, Char(c));
    case InQuotedEscape(items) => ItemsSnoc(items, EscapedChar(c));
    case _ =>
  }

  lemma ItemsTextNothing()
    ensures ItemsText([]) == ""
  {
  }

  lemma {:induction false} ParseAll(s: Scan, ps: seq<Piece>, o: Open, input: string)
    returns (ps': seq<Piece>, o': Open)
    requires WellFormed(ps) && OpenOk(o) && Mirrors(s, o)
    ensures WellFormed(ps') && OpenOk(o') && Mirrors(ScanAll(s, input), o')
    ensures Text(ps') + OpenText(o') == Text(ps) + OpenText(o) + input
    decreases input
  {
    hide Text, OpenText, OpenOk, Mirrors, Next, Extend, WellFormed;
    if input == "" {
      ps', o' := ps, o;
      assert Text(ps) + OpenText(o) + input == Text(ps) + OpenText(o);
    } else {
      ExtendMirrors(s, ps, o, input[0]);
      ExtendText(ps, o, input[0]);
      var (ps1, o1) := Extend(ps, o, input[0]);
      ps', o' := ParseAll(Next(s, input[0]), ps1, o1, input[1..]);
      assert Text(ps) + OpenText(o) + [input[0]] + input[1..] == Text(ps) + OpenText(o) + input;
    }
  }

  /** Reading a whole input: what is left open at its end decides between success and failure. */
  lemma ParseWhole(input: string) returns (ps: seq<Piece>, o: Open)
    ensures WellFormed(ps) && OpenOk(o) && Text(ps) + OpenText(o) == input
    ensures Split(input).Some? <==> o == Closed
  {
    hide ScanAll, Next, Extend, Text, OpenText;
    NothingRead();
    ps, o := ParseAll(INITIAL, [], Closed, input);
    assert "" + input == input;
  }

  lemma NothingRead()
    ensures Text([]) + OpenText(Closed) == "" && OpenText(Closed) == ""
  {
  }

  /** The splitter succeeds exactly on the texts of well-formed commands. */
  lemma SplitSucceedsIff(input: string)
    ensures Split(input).Some? <==> exists ps :: WellFormed(ps) && Text(ps) == input
  {
    hide *;
    var ps, o := ParseWhole(input);
    if o == Closed {
      NothingRead();
      assert Text(ps) + "" == Text(ps);
    } else {
      forall ps | WellFormed(ps) ensures Text(ps) != input {
        SplitMeans(ps);
      }
    }
  }

  /** It fails exactly when the input ends inside a quoted piece or after a dangling backslash. */
  lemma SplitFailsIff(input: string)
    ensures Split(input).None? <==>
            exists ps, o :: WellFormed(ps) && OpenOk(o) && o != Closed && Text(ps) + OpenText(o) == input
  {
    hide *;
    var ps0, o0 := ParseWhole(input);
    if exists ps, o :: WellFormed(ps) && OpenOk(o) && o != Closed && Text(ps) + OpenText(o) == input {
      var ps, o :| WellFormed(ps) && OpenOk(o) && o != Closed && Text(ps) + OpenText(o) == input;
      OpenStays(ps, o);
    }
  }

  lemma {:induction false} ScanWhole(tokens: seq<string>, word: Option<string>, ps: seq<Piece>)
    returns (tokens': seq<string>, word': Option<string>)
    requires WellFormed(ps)
    ensures ScanAll(Doing(tokens, word), Text(ps)) == Doing(tokens', word')
    decreases ps
  {
    tokens', word' := tokens, word;
    if ps != [] {
      ScanConcat(Doing(tokens, word), PieceText(ps[0]), Text(ps[1..]));
      ScanPiece(tokens, word, ps[0]);
      if ps[0].Blank? {
        tokens', word' := ScanWhole(tokens + (if word.Some? then [word.value] else []), None, ps[1..]);
      } else {
        tokens', word' :=
          ScanWhole(tokens, Some((if word.Some? then word.value else "") + PieceMeaning(ps[0])), ps[1..]);
      }
    }
  }

  lemma OpenStays(ps: seq<Piece>, o: Open)
    requires WellFormed(ps) && OpenOk(o) && o != Closed
    ensures Split(Text(ps) + OpenText(o)) == None
  {
    var tokens, word := ScanWhole([], None, ps);
    var s := Doing(tokens, word);
    ScanConcat(INITIAL, Text(ps), OpenText(o));
    match o
    case AfterEscape => ScanOne(s, ESCAPE);
    case InLiteral(text) =>
      ScanConcat(s, [QUOTE], text);
      ScanOne(s, QUOTE);
      ScanLiteral(Next(s, QUOTE), text);
    case InQuoted(items) =>
      ScanConcat(s, [DOUBLE], ItemsText(items));
      ScanOne(s, DOUBLE);
      ScanItems(Next(s, DOUBLE), items);
    case InQuotedEscape(items) =>
      ScanDelimited(s, DOUBLE, ItemsText(items), ESCAPE);
      ScanItems(Next(s, DOUBLE), items);
  }

  // ---- Quoting ----

  /** A token as an SCP client quotes it: '...' with each inner quote written as '\''. */
  function QuoteBody(token: string): string {
    if token == "" then ""
    else (if token[0] == QUOTE then [QUOTE, ESCAPE, QUOTE, QUOTE] else [token[0]]) + QuoteBody(token[1..])
  }

  function QuoteToken(token: string): string {
    [QUOTE] + QuoteBody(token) + [QUOTE]
  }

  function QuoteAll(tokens: seq<string>): string {
    if tokens == [] then ""
    else if |tokens| == 1 then QuoteToken(tokens[0])
    else QuoteToken(tokens[0]) + " " + QuoteAll(tokens[1..])
  }

  lemma {:induction false} ScanQuoteBody(s: Scan, token: string)
    requires s.quote == Single && !s.escaped && s.started
    ensures ScanAll(s, QuoteBody(token)) == s.(current := s.current + token)
    decreases token
  {
    hide ScanAll;
    ScanNothing(s);
    if token == "" {
      assert s.current + token == s.current;
    } else {
      var s1 := s.(current := s.current + [token[0]]);
      if token[0] == QUOTE {
        ScanTwo(s, QUOTE, ESCAPE);
        ScanTwo(Next(Next(s, QUOTE), ESCAPE), QUOTE, QUOTE);
        ScanConcat(s, [QUOTE, ESCAPE], [QUOTE, QUOTE]);
        assert [QUOTE, ESCAPE, QUOTE, QUOTE] == [QUOTE, ESCAPE] + [QUOTE, QUOTE];
        ScanConcat(s, [QUOTE, ESCAPE, QUOTE, QUOTE], QuoteBody(token[1..]));
      } else {
        ScanOne(s, token[0]);
        ScanConcat(s, [token[0]], QuoteBody(token[1..]));
      }
      ScanQuoteBody(s1, token[1..]);
      assert s.current + [token[0]] + token[1..] == s.current + token;
    }
  }

  lemma ScanQuoteToken(tokens: seq<string>, token: string)
    ensures ScanAll(Doing(tokens, None), QuoteToken(token)) == Doing(tokens, Some(token))
  {
    var s := Doing(tokens, None);
    ScanDelimited(s, QUOTE, QuoteBody(token), QUOTE);
    ScanQuoteBody(Next(s, QUOTE), token);
    assert "" + token == token;
  }

  lemma {:induction false} ScanQuoteAll(done: seq<string>, tokens: seq<string>)
    ensures Finish(ScanAll(Doing(done, None), QuoteAll(tokens))) == Some(done + tokens)
    decreases tokens
  {
    if tokens == [] {
      assert done + tokens == done;
    } else {
      ScanQuoteToken(done, tokens[0]);
      if |tokens| == 1 {
        assert done + tokens == done + [tokens[0]];
      } else {
        var rest := QuoteAll(tokens[1..]);
        ScanConcat(Doing(done, None), QuoteToken(tokens[0]) + " ", rest);
        ScanConcat(Doing(done, None), QuoteToken(tokens[0]), " ");
        ScanOne(Doing(done, Some(tokens[0])), ' ');
        ScanQuoteAll(done + [tokens[0]], tokens[1..]);
        assert done + [tokens[0]] + tokens[1..] == done + tokens;
      }
    }
  }

  /** Splitting inverts quoting, for every list of tokens. */
  lemma SplitInvertsQuoting(tokens: seq<string>)
    ensures Split(QuoteAll(tokens)) == Some(tokens)
  {
    ScanQuoteAll([], tokens);
    assert [] + tokens == tokens;
  }
}

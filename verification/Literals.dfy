/** Escaping for SQL and Redis literals, against the lexers that read them back. */
module Literals {
  import opened Prelude

  const BACKSLASH: char := '\\'

  /** strings.ReplaceAll with a one-character pattern. */
  function ReplaceAll(s: string, old_: char, with: string): string {
    if s == "" then "" else (if s[0] == old_ then with else [s[0]]) + ReplaceAll(s[1..], old_, with)
  }

  function EscapeMariaDB(s: string): string {
    ReplaceAll(ReplaceAll(s, BACKSLASH, "\\\\"), '\'', "\\'")
  }

  function EscapePostgres(s: string): string {
    ReplaceAll(s, '\'', "''")
  }

  function EscapeRedisConf(s: string): string {
    ReplaceAll(ReplaceAll(s, BACKSLASH, "\\\\"), '\"', "\\\"")
  }

  // ---- The lexers, from just after the opening quote: the value and what follows the literal ----

  function Prepend(s: string, r: Option<(string, string)>): Option<(string, string)> {
    if r.None? then None else Some((s + r.value.0, r.value.1))
  }

  /** MySQL and MariaDB, backslash escapes on. */
  function LexMariaDB(s: string): Option<(string, string)>
    decreases s
  {
    if s == "" then None
    else if s[0] == BACKSLASH then
      if |s| == 1 then None else Prepend(MariaDBEscape(s[1]), LexMariaDB(s[2..]))
    else if s[0] == '\'' then
      if |s| > 1 && s[1] == '\'' then Prepend("'", LexMariaDB(s[2..])) else Some(("", s[1..]))
    else Prepend([s[0]], LexMariaDB(s[1..]))
  }

  function MariaDBEscape(c: char): string {
    match c
    case '0' => "\0"
    case 'b' => "\U{0008}"
    case 'n' => "\n"
    case 'r' => "\r"
    case 't' => "\t"
    case 'Z' => "\U{001A}"
    case '%' => "\\%"
    case '_' => "\\_"
    case _ => [c]
  }

  /** PostgreSQL, standard-conforming strings; a NUL ends the whole query. */
  function LexPostgres(s: string): Option<(string, string)>
    decreases s
  {
    if s == "" || s[0] == '\0' then None
    else if s[0] == '\'' then
      if |s| > 1 && s[1] == '\'' then Prepend("'", LexPostgres(s[2..])) else Some(("", s[1..]))
    else Prepend([s[0]], LexPostgres(s[1..]))
  }

  predicate IsHex(c: char) {
    '0' <= c <= '9' || 'a' <= c <= 'f' || 'A' <= c <= 'F'
  }

  function HexDigit(c: char): (n: nat)
    requires IsHex(c)
    ensures n < 16
  {
    if c <= '9' then c as int - '0' as int
    else if c <= 'F' then c as int - 'A' as int + 10
    else c as int - 'a' as int + 10
  }

  function RedisEscape(c: char): char {
    match c
    case 'n' => '\n'
    case 'r' => '\r'
    case 't' => '\t'
    case 'b' => '\U{0008}'
    case 'a' => '\U{0007}'
    case _ => c
  }

  /** A double-quoted argument of redis.conf: the closing quote ends the line or is followed by a blank,
      and a NUL ends the line. */
  function LexRedis(s: string): Option<(string, string)>
    decreases s
  {
    if s == "" || s[0] == '\0' then None
    else if |s| >= 4 && s[0] == BACKSLASH && s[1] == 'x' && IsHex(s[2]) && IsHex(s[3]) then
      Prepend([(16 * HexDigit(s[2]) + HexDigit(s[3])) as char], LexRedis(s[4..]))
    else if s[0] == BACKSLASH && |s| > 1 && s[1] != '\0' then Prepend([RedisEscape(s[1])], LexRedis(s[2..]))
    else if s[0] == '\"' then
      if |s| > 1 && s[1] != '\0' && !IsBlank(s[1]) then None else Some(("", s[1..]))
    else Prepend([s[0]], LexRedis(s[1..]))
  }

  // ---- Two passes are one map ----

  /** One escaped character. */
  function Escaped(c: char, quote: char): string {
    if c == BACKSLASH || c == quote then [BACKSLASH, c] else [c]
  }

  function EscapeEach(s: string, quote: char): string {
    if s == "" then "" else Escaped(s[0], quote) + EscapeEach(s[1..], quote)
  }

  lemma {:induction false} ReplaceConcat(a: string, b: string, old_: char, with: string)
    ensures ReplaceAll(a + b, old_, with) == ReplaceAll(a, old_, with) + ReplaceAll(b, old_, with)
    decreases a
  {
    if a == "" {
      assert a + b == b;
    } else {
      assert (a + b)[1..] == a[1..] + b;
      ReplaceConcat(a[1..], b, old_, with);
    }
  }

  /** Escaping backslashes first and the quote second treats every character on its own. */
  lemma {:induction false} TwoPassesAreOneMap(s: string, quote: char)
    requires quote != BACKSLASH
    ensures ReplaceAll(ReplaceAll(s, BACKSLASH, [BACKSLASH, BACKSLASH]), quote, [BACKSLASH, quote]) == EscapeEach(s, quote)
    decreases s
  {
    if s != "" {
      var head := if s[0] == BACKSLASH then [BACKSLASH, BACKSLASH] else [s[0]];
      var tail := ReplaceAll(s[1..], BACKSLASH, [BACKSLASH, BACKSLASH]);
      ReplaceConcat(head, tail, quote, [BACKSLASH, quote]);
      TwoPassesAreOneMap(s[1..], quote);
      ReplaceShort(head, quote);
    }
  }

  lemma ReplaceShort(head: string, quote: char)
    requires quote != BACKSLASH && 1 <= |head| <= 2 && (|head| == 2 ==> head == [BACKSLASH, BACKSLASH])
    ensures ReplaceAll(head, quote, [BACKSLASH, quote]) ==
            if head == [quote] then [BACKSLASH, quote] else head
  {
    assert head[1..] == if |head| == 2 then [BACKSLASH] else "";
    if |head| == 2 { assert [BACKSLASH][1..] == ""; }
  }

  /** The other order would escape the backslash that escapes the quote. */
  lemma OrderMatters()
    ensures ReplaceAll(ReplaceAll("'", '\'', "\\'"), BACKSLASH, "\\\\") != EscapeMariaDB("'")
  {
    assert "'"[1..] == "" && "\\'"[1..] == "'";
    assert ReplaceAll("'", '\'', "\\'") == "\\'";
    assert ReplaceAll("'", BACKSLASH, "\\\\") == "'";
    assert ReplaceAll("\\'", BACKSLASH, "\\\\") == "\\\\'";
  }

  // ---- Round trips ----

  lemma PrependTwice(a: string, b: string, r: Option<(string, string)>)
    ensures Prepend(a, Prepend(b, r)) == Prepend(a + b, r)
  {
    if r.Some? { assert a + (b + r.value.0) == a + b + r.value.0; }
  }

  lemma PrependNothing(r: Option<(string, string)>)
    ensures Prepend("", r) == r
  {
    if r.Some? { assert "" + r.value.0 == r.value.0; }
  }

  lemma MariaDBReadsOne(c: char, rest: string)
    ensures LexMariaDB(Escaped(c, '\'') + rest) == Prepend([c], LexMariaDB(rest))
  {
    var all := Escaped(c, '\'') + rest;
    if |Escaped(c, '\'')| == 2 {
      assert all[2..] == rest && all[0] == BACKSLASH && all[1] == c;
    } else {
      assert all[1..] == rest;
    }
  }

  lemma {:induction false} MariaDBReads(s: string, t: string)
    ensures LexMariaDB(EscapeEach(s, '\'') + t) == Prepend(s, LexMariaDB(t))
    decreases s
  {
    hide LexMariaDB, Escaped;
    if s == "" {
      assert EscapeEach(s, '\'') + t == t;
      PrependNothing(LexMariaDB(t));
    } else {
      var rest := EscapeEach(s[1..], '\'') + t;
      assert EscapeEach(s, '\'') + t == Escaped(s[0], '\'') + rest;
      MariaDBReadsOne(s[0], rest);
      MariaDBReads(s[1..], t);
      PrependTwice([s[0]], s[1..], LexMariaDB(t));
      assert [s[0]] + s[1..] == s;
    }
  }

  /** For every password: the quoted escaped form reads back as the password and stops at its final
      quote, exactly when no quote follows it. */
  lemma MariaDBRoundTrip(s: string, rest: string)
    ensures LexMariaDB(EscapeMariaDB(s) + "'" + rest) == Some((s, rest)) <==> (rest == "" || rest[0] != '\'')
  {
    hide LexMariaDB, EscapeEach, ReplaceAll;
    TwoPassesAreOneMap(s, '\'');
    assert "\\\\" == [BACKSLASH, BACKSLASH] && "\\'" == [BACKSLASH, '\''];
    assert EscapeMariaDB(s) + "'" + rest == EscapeEach(s, '\'') + ("'" + rest);
    MariaDBReads(s, "'" + rest);
    MariaDBCloses(rest);
    QuoteIsLonger(s, LexMariaDB("'" + rest), rest);
  }

  lemma MariaDBCloses(rest: string)
    ensures LexMariaDB("'" + rest) ==
            if rest != "" && rest[0] == '\'' then Prepend("'", LexMariaDB(rest[1..])) else Some(("", rest))
  {
    assert ("'" + rest)[1..] == rest;
    if rest != "" { assert ("'" + rest)[2..] == rest[1..]; }
  }

  lemma QuoteIsLonger(s: string, r: Option<(string, string)>, rest: string)
    ensures r.Some? && r.value.0 != "" ==> Prepend(s, r) != Some((s, rest))
    ensures r == Some(("", rest)) ==> Prepend(s, r) == Some((s, rest))
  {
    assert s + "" == s;
  }

  lemma PostgresReadsOne(c: char, rest: string)
    ensures var head := if c == '\'' then "''" else [c];
            LexPostgres(head + rest) == if c == '\0' then None else Prepend([c], LexPostgres(rest))
  {
    var head := if c == '\'' then "''" else [c];
    var all := head + rest;
    if c == '\'' {
      assert all[2..] == rest && all[0] == '\'' && all[1] == '\'' && "'" == [c];
    } else {
      assert all[1..] == rest;
    }
  }

  /** A value is read back up to its first NUL, where reading fails. */
  lemma {:induction false} PostgresReads(s: string, t: string)
    ensures LexPostgres(EscapePostgres(s) + t) == if '\0' in s then None else Prepend(s, LexPostgres(t))
    decreases s
  {
    hide LexPostgres;
    if s == "" {
      assert EscapePostgres(s) + t == t;
      PrependNothing(LexPostgres(t));
    } else {
      var rest := EscapePostgres(s[1..]) + t;
      var head := if s[0] == '\'' then "''" else [s[0]];
      assert EscapePostgres(s) + t == head + rest;
      PostgresReadsOne(s[0], rest);
      PostgresReads(s[1..], t);
      PrependTwice([s[0]], s[1..], LexPostgres(t));
      assert [s[0]] + s[1..] == s;
    }
  }

  /** The same for PostgreSQL, which refuses a NUL anywhere. */
  lemma PostgresRoundTrip(s: string, rest: string)
    ensures LexPostgres(EscapePostgres(s) + "'" + rest) == Some((s, rest)) <==>
            '\0' !in s && (rest == "" || rest[0] != '\'')
  {
    hide LexPostgres, ReplaceAll;
    assert EscapePostgres(s) + "'" + rest == EscapePostgres(s) + ("'" + rest);
    PostgresReads(s, "'" + rest);
    PostgresCloses(rest);
    QuoteIsLonger(s, LexPostgres("'" + rest), rest);
  }

  lemma PostgresCloses(rest: string)
    ensures LexPostgres("'" + rest) ==
            if rest != "" && rest[0] == '\'' then Prepend("'", LexPostgres(rest[1..])) else Some(("", rest))
  {
    assert ("'" + rest)[1..] == rest;
    if rest != "" { assert ("'" + rest)[2..] == rest[1..]; }
  }

  lemma RedisReadsOne(c: char, rest: string)
    ensures LexRedis(Escaped(c, '\"') + rest) == if c == '\0' then None else Prepend([c], LexRedis(rest))
  {
    var all := Escaped(c, '\"') + rest;
    if |Escaped(c, '\"')| == 2 {
      assert all[2..] == rest && all[0] == BACKSLASH && all[1] == c;
    } else {
      assert all[1..] == rest;
    }
  }

  lemma {:induction false} RedisReads(s: string, t: string)
    ensures LexRedis(EscapeEach(s, '\"') + t) == if '\0' in s then None else Prepend(s, LexRedis(t))
    decreases s
  {
    hide LexRedis, Escaped;
    if s == "" {
      assert EscapeEach(s, '\"') + t == t;
      PrependNothing(LexRedis(t));
    } else {
      var rest := EscapeEach(s[1..], '\"') + t;
      assert EscapeEach(s, '\"') + t == Escaped(s[0], '\"') + rest;
      RedisReadsOne(s[0], rest);
      RedisReads(s[1..], t);
      PrependTwice([s[0]], s[1..], LexRedis(t));
      assert [s[0]] + s[1..] == s;
    }
  }

  /** The configuration line the password ends up on: everything up to the next newline. */
  function FirstLine(s: string): string {
    s[..IndexOf(s, '\n')]
  }

  /** redis.conf is read line by line, and a line up to its first NUL: the password comes back exactly when
      it has neither a newline nor a NUL. */
  lemma RedisRoundTrip(s: string, rest: string)
    ensures LexRedis(FirstLine(EscapeRedisConf(s) + "\"" + "\n" + rest)) == Some((s, "")) <==>
            '\n' !in s && '\0' !in s
  {
    hide LexRedis, ReplaceAll, EscapeEach;
    TwoPassesAreOneMap(s, '\"');
    assert "\\\\" == [BACKSLASH, BACKSLASH] && "\\\"" == [BACKSLASH, '\"'];
    var e := EscapeRedisConf(s);
    var text := e + "\"" + "\n" + rest;
    var i := IndexOf(s, '\n');
    if i == |s| {
      assert '\n' !in s by { assert s[..i] == s; }
      EscapedNewlines(s);
      var line := e + "\"";
      assert text == line + ['\n'] + rest;
      IndexOfConcat(line, '\n', rest);
      assert FirstLine(text) == line;
      RedisReads(s, "\"");
      RedisCloses();
      assert s + "" == s;
    } else {
      var p, q := s[..i], s[i + 1..];
      assert s == p + ['\n'] + q;
      EscapedSplit(p, '\n', q);
      EscapedNewlines(p);
      assert text == EscapeEach(p, '\"') + ['\n'] + (EscapeEach(q, '\"') + "\"" + "\n" + rest);
      IndexOfConcat(EscapeEach(p, '\"'), '\n', EscapeEach(q, '\"') + "\"" + "\n" + rest);
      assert FirstLine(text) == EscapeEach(p, '\"') == EscapeEach(p, '\"') + "";
      RedisReads(p, "");
      RedisUnclosed();
    }
  }

  lemma RedisCloses()
    ensures LexRedis("\"") == Some(("", ""))
  {
    assert "\""[1..] == "";
  }

  lemma RedisUnclosed()
    ensures LexRedis("") == None
  {
  }

  lemma {:induction false} EscapedNewlines(s: string)
    requires '\n' !in s
    ensures '\n' !in EscapeEach(s, '\"')
    decreases s
  {
    if s != "" {
      assert s[0] in s;
      EscapedNewlines(s[1..]);
    }
  }

  lemma {:induction false} EscapedSplit(p: string, c: char, q: string)
    requires c != BACKSLASH && c != '\"'
    ensures EscapeEach(p + [c] + q, '\"') == EscapeEach(p, '\"') + [c] + EscapeEach(q, '\"')
    decreases p
  {
    if p == "" {
      assert p + [c] + q == [c] + q && ([c] + q)[1..] == q;
    } else {
      assert (p + [c] + q)[1..] == p[1..] + [c] + q;
      EscapedSplit(p[1..], c, q);
    }
  }
}

/** Canonical systemd service names for apps, and the request filter that accepts them. */
module ServiceNames {
  import opened Prelude

  const DASH: char -> bool := c => c == '-'
  const SERVICE_PREFIX := "deploycp-app-"

  predicate IsAllowed(c: char) {
    'a' <= c <= 'z' || '0' <= c <= '9'
  }

  /** The loop: allowed characters are kept, runs of others become one dash. */
  function Dashed(out: string, lastDash: bool, s: string): string
    decreases s
  {
    if s == "" then out
    else if IsAllowed(s[0]) then Dashed(out + [s[0]], false, s[1..])
    else if !lastDash then Dashed(out + "-", true, s[1..])
    else Dashed(out, true, s[1..])
  }

  function TokenOr(value: string, fallback: string): string {
    var token := Trim(Dashed("", false, ToLower(TrimSpace(value))), DASH);
    if token == "" then fallback else token
  }

  /** appSystemdServiceSlug. */
  function Slug(name: string): string {
    TokenOr(name, "platform")
  }

  /** appSystemdServiceName. */
  function ServiceName(name: string): string {
    SERVICE_PREFIX + Slug(name)
  }

  /** sudoersFileToken. */
  function SudoersToken(value: string): string {
    TokenOr(value, "runtime")
  }

  /** The builder loop shared by the slug and the sudoers token. */
  method BuildToken(value: string, fallback: string) returns (token: string)
    ensures token == TokenOr(value, fallback)
  {
    var s := ToLower(TrimSpace(value));
    var b := "";
    var lastDash := false;
    for i := 0 to |s|
      invariant Dashed("", false, s) == Dashed(b, lastDash, s[i..])
    {
      assert s[i..][0] == s[i] && s[i..][1..] == s[i + 1..];
      if IsAllowed(s[i]) {
        b := b + [s[i]];
        lastDash := false;
        continue;
      }
      if !lastDash {
        b := b + "-";
        lastDash := true;
      }
    }
    assert s[|s|..] == "";
    token := Trim(b, DASH);
    if token == "" {
      token := fallback;
    }
  }

  /** validRuntimeControlRequest. */
  predicate ValidRequest(unit: string, action: string) {
    && HasPrefix(unit, SERVICE_PREFIX)
    && !(exists i | 0 <= i < |unit| :: unit[i] in " \t\r\n/")
    && (forall i | 0 <= i < |unit| :: unit[i] == '-' || IsAllowed(unit[i]))
    && action in {"start", "stop", "restart", "status", "is-active"}
  }

  // ---- The slug is the words of the name ----

  /** The maximal runs of allowed characters; `word` is the run being read. */
  function Words(s: string, word: string): seq<string>
    decreases s
  {
    var done := if word == "" then [] else [word];
    if s == "" then done
    else if IsAllowed(s[0]) then Words(s[1..], word + [s[0]])
    else done + Words(s[1..], "")
  }

  function JoinDash(words: seq<string>): string {
    if words == [] then "" else if |words| == 1 then words[0] else words[0] + "-" + JoinDash(words[1..])
  }

  predicate IsWord(w: string) {
    w != "" && forall i | 0 <= i < |w| :: IsAllowed(w[i])
  }

  predicate AllWords(words: seq<string>) {
    forall i | 0 <= i < |words| :: IsWord(words[i])
  }

  /** The builder after the words `done`, each closed by a dash, and the open word. */
  function Built(lead: bool, done: seq<string>, word: string): string {
    (if lead then "-" else "") + Closed(done) + word
  }

  function Closed(done: seq<string>): string {
    if done == [] then "" else Closed(done[..|done| - 1]) + done[|done| - 1] + "-"
  }

  lemma BuiltChar(lead: bool, done: seq<string>, word: string, c: char)
    ensures Built(lead, done, word) + [c] == Built(lead, done, word + [c])
  {
  }

  lemma BuiltClose(lead: bool, done: seq<string>, word: string)
    ensures Built(lead, done, word) + "-" == Built(lead, done + [word], "")
  {
    assert (done + [word])[..|done|] == done;
  }

  lemma BuiltLead()
    ensures Built(false, [], "") + "-" == Built(true, [], "")
  {
  }

  lemma {:induction false} DashedIsBuilt(lead: bool, done: seq<string>, word: string, s: string)
    returns (lead': bool, done': seq<string>, word': string)
    requires AllWords(done) && (word == "" || IsWord(word))
    ensures AllWords(done') && (word' == "" || IsWord(word'))
    ensures Dashed(Built(lead, done, word), word == "" && (lead || done != []), s) == Built(lead', done', word')
    ensures done + Words(s, word) == done' + (if word' == "" then [] else [word'])
    decreases s
  {
    hide Built, Closed;
    var out := Built(lead, done, word);
    if s == "" {
      lead', done', word' := lead, done, word;
    } else if IsAllowed(s[0]) {
      BuiltChar(lead, done, word, s[0]);
      lead', done', word' := DashedIsBuilt(lead, done, word + [s[0]], s[1..]);
    } else if word != "" {
      BuiltClose(lead, done, word);
      lead', done', word' := DashedIsBuilt(lead, done + [word], "", s[1..]);
      assert done + ([word] + Words(s[1..], "")) == done + [word] + Words(s[1..], "");
    } else if lead || done != [] {
      lead', done', word' := DashedIsBuilt(lead, done, "", s[1..]);
      assert [] + Words(s[1..], "") == Words(s[1..], "");
    } else {
      BuiltLead();
      lead', done', word' := DashedIsBuilt(true, done, "", s[1..]);
      assert [] + Words(s[1..], "") == Words(s[1..], "");
    }
  }

  lemma {:induction false} JoinSnoc(words: seq<string>, w: string)
    requires words != []
    ensures JoinDash(words + [w]) == JoinDash(words) + "-" + w
    decreases words
  {
    if |words| == 1 {
      assert (words + [w])[1..] == [w];
    } else {
      assert (words + [w])[1..] == words[1..] + [w];
      JoinSnoc(words[1..], w);
      assert words[0] + "-" + (JoinDash(words[1..]) + "-" + w) == words[0] + "-" + JoinDash(words[1..]) + "-" + w;
    }
  }

  lemma {:induction false} ClosedIsJoin(done: seq<string>)
    requires done != []
    ensures Closed(done) == JoinDash(done) + "-"
    decreases done
  {
    var front, last := done[..|done| - 1], done[|done| - 1];
    assert done == front + [last];
    if front == [] {
      assert Closed(front) + last + "-" == last + "-";
    } else {
      ClosedIsJoin(front);
      JoinSnoc(front, last);
    }
  }

  /** Words joined by dashes neither begin nor end with a dash. */
  lemma {:induction false} JoinEnds(words: seq<string>)
    requires AllWords(words) && words != []
    ensures var j := JoinDash(words); j != "" && j[0] != '-' && j[|j| - 1] != '-'
    decreases words
  {
    if |words| > 1 {
      JoinEnds(words[1..]);
    }
  }

  lemma TrimDashes(lead: bool, body: string, trail: bool)
    requires body != "" ==> body[0] != '-' && body[|body| - 1] != '-'
    ensures Trim((if lead then "-" else "") + body + (if trail then "-" else ""), DASH) == body
  {
    hide TrimLeft, TrimRight;
    var l, t := if lead then "-" else "", if trail then "-" else "";
    var inner := body + t;
    assert l + body + t == l + inner;
    if body != "" {
      assert inner[0] == body[0];
      TrimLeftDash(lead, inner);
      TrimRightDash(body, trail);
    } else {
      assert inner == t;
      TrimLeftDash(lead, inner);
      TrimAllDash();
    }
  }

  lemma TrimLeftDash(lead: bool, s: string)
    requires s == "" || s[0] != '-' || s == "-"
    ensures TrimLeft((if lead then "-" else "") + s, DASH) == if s == "-" then "" else s
  {
    var all := (if lead then "-" else "") + s;
    assert all[if lead then 1 else 0..] == s;
    if s == "-" { assert s[1..] == ""; }
  }

  lemma TrimRightDash(body: string, trail: bool)
    requires body != "" && body[|body| - 1] != '-'
    ensures TrimRight(body + (if trail then "-" else ""), DASH) == body
  {
    var s := body + (if trail then "-" else "");
    if trail {
      assert s[..|s| - 1] == body;
    } else {
      assert s == body;
    }
  }

  lemma TrimAllDash()
    ensures TrimRight("", DASH) == ""
  {
  }

  /** What the builder holds at the end: the words joined by dashes, with a dash before or after. */
  lemma BuiltIsJoin(lead: bool, done: seq<string>, word: string)
    ensures var words := done + (if word == "" then [] else [word]);
            Built(lead, done, word) ==
            (if lead then "-" else "") + JoinDash(words) + (if word == "" && done != [] then "-" else "")
  {
    hide JoinDash, Closed;
    if done == [] {
      NothingClosed();
      JoinNothing();
      JoinSingle(word);
      assert [] + [word] == [word];
    } else {
      ClosedIsJoin(done);
      JoinSnoc(done, word);
      assert done + [] == done;
    }
  }

  lemma NothingClosed()
    ensures Closed([]) == ""
  {
  }

  /** The independent reading: lower-case the name, take its words, join them with dashes. */
  lemma TokenIsWords(value: string, fallback: string)
    ensures var words := Words(ToLower(TrimSpace(value)), "");
            AllWords(words) && TokenOr(value, fallback) == if words == [] then fallback else JoinDash(words)
  {
    hide TrimSpace, ToLower, Trim, JoinDash, Words, Built, Dashed;
    var s := ToLower(TrimSpace(value));
    var lead, done, word := DashedIsBuilt(false, [], "", s);
    NothingBuilt();
    var words := Words(s, "");
    assert [] + words == words;
    assert words == done + (if word == "" then [] else [word]);
    BuiltIsJoin(lead, done, word);
    if words != [] { JoinEnds(words); } else { JoinNothing(); }
    TrimDashes(lead, JoinDash(words), word == "" && done != []);
  }

  lemma NothingBuilt()
    ensures Built(false, [], "") == ""
  {
  }

  lemma JoinNothing()
    ensures JoinDash([]) == ""
  {
  }

  lemma JoinSingle(w: string)
    ensures JoinDash([w]) == w
  {
  }

  // ---- Canonical names ----

  /** Words over [a-z0-9] separated by single dashes. */
  predicate Canonical(s: string) {
    && s != "" && s[0] != '-' && s[|s| - 1] != '-'
    && (forall i | 0 <= i < |s| :: s[i] == '-' || IsAllowed(s[i]))
    && (forall i | 0 <= i < |s| - 1 :: !(s[i] == '-' && s[i + 1] == '-'))
  }

  lemma {:induction false} JoinCanonical(words: seq<string>)
    requires AllWords(words) && words != []
    ensures Canonical(JoinDash(words))
    decreases words
  {
    if |words| > 1 {
      JoinCanonical(words[1..]);
      var w, rest := words[0], JoinDash(words[1..]);
      var j := JoinDash(words);
      assert j == w + "-" + rest;
      assert forall i | 0 <= i < |w| :: j[i] == w[i] && IsAllowed(w[i]);
      assert forall i | 0 <= i < |rest| :: j[|w| + 1 + i] == rest[i];
      assert forall i | |w| < i < |j| :: j[i] == rest[i - |w| - 1];
    }
  }

  lemma {:induction false} DashedKeeps(out: string, lastDash: bool, s: string)
    requires forall i | 0 <= i < |s| :: s[i] == '-' || IsAllowed(s[i])
    requires forall i | 0 <= i < |s| - 1 :: !(s[i] == '-' && s[i + 1] == '-')
    requires lastDash && s != "" ==> s[0] != '-'
    ensures Dashed(out, lastDash, s) == out + s
    decreases s
  {
    if s == "" {
      assert out + s == out;
    } else {
      assert forall i | 0 <= i < |s[1..]| :: s[1..][i] == s[i + 1];
      assert out + [s[0]] + s[1..] == out + s;
      if IsAllowed(s[0]) {
        DashedKeeps(out + [s[0]], false, s[1..]);
      } else {
        assert [s[0]] == "-";
        DashedKeeps(out + "-", true, s[1..]);
      }
    }
  }

  lemma CanonicalIsPlain(s: string)
    requires Canonical(s)
    ensures TrimSpace(s) == s && ToLower(s) == s
  {
    hide TrimSpace;
    TrimmedWord(s);
    assert forall i | 0 <= i < |s| :: LowerChar(s[i]) == s[i];
  }

  /** A canonical name is its own token. */
  lemma CanonicalIsFixed(s: string, fallback: string)
    requires Canonical(s)
    ensures TokenOr(s, fallback) == s
  {
    hide TrimLeft, TrimRight, TrimSpace, Dashed, ToLower, Trim;
    CanonicalIsPlain(s);
    DashedKeeps("", false, s);
    assert "" + s == s;
    TrimDashes(false, s, false);
    assert "" + s + "" == s;
  }

  lemma SlugIsCanonical(name: string)
    ensures Canonical(Slug(name))
  {
    hide Canonical, TokenOr, JoinDash, Words, ToLower, TrimSpace;
    TokenIsWords(name, "platform");
    var words := Words(ToLower(TrimSpace(name)), "");
    if words != [] {
      JoinCanonical(words);
    } else {
      PlatformIsCanonical();
    }
  }

  lemma PlatformIsCanonical()
    ensures Canonical("platform")
  {
  }

  /** For every app name: the slug is canonical and idempotent, the service name is its own sudoers
      token, and the control socket accepts it for all five actions. */
  lemma ServiceNameIsCanonical(name: string, action: string)
    requires action in {"start", "stop", "restart", "status", "is-active"}
    ensures Canonical(Slug(name)) && Slug(Slug(name)) == Slug(name)
    ensures Canonical(ServiceName(name)) && SudoersToken(ServiceName(name)) == ServiceName(name)
    ensures ValidRequest(ServiceName(name), action)
  {
    hide TokenOr;
    SlugIsCanonical(name);
    var slug, unit := Slug(name), ServiceName(name);
    CanonicalIsFixed(slug, "platform");
    PrefixedCanonical(slug);
    CanonicalIsFixed(unit, "runtime");
    CanonicalIsClean(unit);
    assert unit[..|SERVICE_PREFIX|] == SERVICE_PREFIX;
  }

  lemma PrefixedCanonical(slug: string)
    requires Canonical(slug)
    ensures Canonical(SERVICE_PREFIX + slug)
  {
    var s := SERVICE_PREFIX + slug;
    var k := |SERVICE_PREFIX|;
    assert forall i | 0 <= i < k :: s[i] == SERVICE_PREFIX[i];
    assert forall i | k <= i < |s| :: s[i] == slug[i - k];
    PrefixShape();
    assert forall i | 0 <= i < k - 1 :: !(s[i] == '-' && s[i + 1] == '-');
    assert forall i | k <= i < |s| - 1 :: !(s[i] == '-' && s[i + 1] == '-');
  }

  lemma PrefixShape()
    ensures SERVICE_PREFIX != "" && SERVICE_PREFIX[0] != '-'
    ensures forall i | 0 <= i < |SERVICE_PREFIX| :: SERVICE_PREFIX[i] == '-' || IsAllowed(SERVICE_PREFIX[i])
    ensures forall i | 0 <= i < |SERVICE_PREFIX| - 1 :: !(SERVICE_PREFIX[i] == '-' && SERVICE_PREFIX[i + 1] == '-')
  {
  }

  lemma CanonicalIsClean(s: string)
    requires Canonical(s)
    ensures !(exists i | 0 <= i < |s| :: s[i] in " \t\r\n/")
  {
  }

  // ---- The filter and the fallbacks, spelled out ----

  predicate PlainLetter(c: char) {
    c == '-' || c in "abcdefghijklmnopqrstuvwxyz" || c in "0123456789"
  }

  lemma LetterIff(c: char)
    ensures c in "abcdefghijklmnopqrstuvwxyz" <==> 'a' <= c <= 'z'
  {
    var letters := "abcdefghijklmnopqrstuvwxyz";
    assert forall i | 0 <= i < 26 :: letters[i] == 'a' + i as char;
    if 'a' <= c <= 'z' {
      assert letters[(c - 'a') as int] == c;
    }
  }

  lemma DigitIff(c: char)
    ensures c in "0123456789" <==> '0' <= c <= '9'
  {
    var digits := "0123456789";
    assert forall i | 0 <= i < 10 :: digits[i] == '0' + i as char;
    if '0' <= c <= '9' {
      assert digits[(c - '0') as int] == c;
    }
  }

  lemma PlainLetterIff(c: char)
    ensures PlainLetter(c) <==> c == '-' || IsAllowed(c)
  {
    LetterIff(c);
    DigitIff(c);
  }

  /** The filter accepts exactly the five actions on units of lower-case letters, digits and dashes behind the prefix. */
  lemma ValidRequestIff(unit: string, action: string)
    ensures ValidRequest(unit, action) <==>
            && |unit| >= 13 && unit[..13] == "deploycp-app-"
            && (forall i | 0 <= i < |unit| :: PlainLetter(unit[i]))
            && (action == "start" || action == "stop" || action == "restart" || action == "status" || action == "is-active")
  {
    hide PlainLetter, IsAllowed;
    forall i | 0 <= i < |unit| ensures PlainLetter(unit[i]) <==> unit[i] == '-' || IsAllowed(unit[i]) {
      PlainLetterIff(unit[i]);
    }
    if forall i | 0 <= i < |unit| :: PlainLetter(unit[i]) {
      forall i | 0 <= i < |unit| ensures unit[i] !in " \t\r\n/" {
        LetterIsNoBlank(unit[i]);
      }
    }
  }

  lemma LetterIsNoBlank(c: char)
    requires PlainLetter(c)
    ensures c !in " \t\r\n/"
  {
    PlainLetterIff(c);
    var blanks := " \t\r\n/";
    assert forall i | 0 <= i < 5 :: blanks[i] < 'a' && !('0' <= blanks[i] <= '9') && blanks[i] != '-';
  }

  /** A name without a letter or digit becomes the fallback. */
  lemma NamelessFallsBack(name: string)
    requires forall i | 0 <= i < |ToLower(TrimSpace(name))| :: !IsAllowed(ToLower(TrimSpace(name))[i])
    ensures Slug(name) == "platform" && SudoersToken(name) == "runtime" && ServiceName(name) == "deploycp-app-platform"
  {
    hide TrimSpace, ToLower, TokenOr, JoinDash, Words, IsAllowed;
    TokenIsWords(name, "platform");
    TokenIsWords(name, "runtime");
    NoWords(ToLower(TrimSpace(name)));
    assert "deploycp-app-" + "platform" == "deploycp-app-platform";
  }

  lemma {:induction false} NoWords(s: string)
    requires forall i | 0 <= i < |s| :: !IsAllowed(s[i])
    ensures Words(s, "") == []
    decreases s
  {
    if s != "" {
      NoWords(s[1..]);
    }
  }
}

/** Small datatypes and text functions shared by the other modules.
    A `string` stands for the Go string it models, one `char` for one byte or rune. */
module Prelude {

  datatype Option<+T> = None | Some(value: T)

  predicate HasPrefix(s: string, prefix: string) {
    |prefix| <= |s| && s[..|prefix|] == prefix
  }

  function TrimPrefix(s: string, prefix: string): string {
    if HasPrefix(s, prefix) then s[|prefix|..] else s
  }

  predicate IsBlank(c: char) {
    c == ' ' || c == '\t' || c == '\r' || c == '\n' || c == '\U{000B}' || c == '\U{000C}'
  }

  function TrimLeft(s: string, drop: char -> bool): (r: string)
    ensures r == "" || !drop(r[0])
    ensures |r| <= |s| && s[|s| - |r|..] == r
    ensures forall i | 0 <= i < |s| - |r| :: drop(s[i])
  {
    if s != "" && drop(s[0]) then TrimLeft(s[1..], drop) else s
  }

  function TrimRight(s: string, drop: char -> bool): (r: string)
    ensures r == "" || !drop(r[|r| - 1])
    ensures r <= s
    ensures forall i | |r| <= i < |s| :: drop(s[i])
  {
    if s != "" && drop(s[|s| - 1]) then TrimRight(s[..|s| - 1], drop) else s
  }

  function Trim(s: string, drop: char -> bool): string {
    TrimRight(TrimLeft(s, drop), drop)
  }

  const BLANK: char -> bool := c => IsBlank(c)

  function TrimSpace(s: string): string {
    Trim(s, BLANK)
  }

  /** A text without white space at its ends is not changed. */
  lemma TrimmedWord(s: string)
    requires s == "" || (!IsBlank(s[0]) && !IsBlank(s[|s| - 1]))
    ensures TrimSpace(s) == s
  {
    assert TrimLeft(s, BLANK) == s;
    assert TrimRight(s, BLANK) == s;
  }

  lemma TrimTrimmed(s: string)
    ensures TrimSpace(TrimSpace(s)) == TrimSpace(s)
  {
    var l := TrimLeft(s, BLANK);
    var r := TrimRight(l, BLANK);
    assert r != "" ==> r[0] == l[0];
    TrimmedWord(r);
  }

  /** The white space of a text, spelled out. */
  predicate IsWhite(c: char) {
    c in " \t\r\n\U{000B}\U{000C}"
  }

  lemma BlankCharacters()
    ensures forall c :: BLANK(c) <==> IsWhite(c)
  {
    var white := " \t\r\n\U{000B}\U{000C}";
    assert white[0] == ' ' && white[1] == '\t' && white[2] == '\r' && white[3] == '\n';
    assert white[4] == '\U{000B}' && white[5] == '\U{000C}';
  }

  predicate AllWhite(s: string) {
    forall i | 0 <= i < |s| :: IsWhite(s[i])
  }

  lemma {:induction false} TrimLeftStops(s: string, drop: char -> bool, k: nat)
    requires k <= |s| && (forall i | 0 <= i < k :: drop(s[i])) && (k == |s| || !drop(s[k]))
    ensures TrimLeft(s, drop) == s[k..]
    decreases k
  {
    if k > 0 {
      TrimLeftStops(s[1..], drop, k - 1);
    }
  }

  lemma {:induction false} TrimRightStops(s: string, drop: char -> bool, k: nat)
    requires k <= |s| && (forall i | k <= i < |s| :: drop(s[i])) && (k == 0 || !drop(s[k - 1]))
    ensures TrimRight(s, drop) == s[..k]
    decreases |s| - k
  {
    if k < |s| {
      TrimRightStops(s[..|s| - 1], drop, k);
      assert s[..|s| - 1][..k] == s[..k];
    }
  }

  lemma TrimRightKeeps(s: string, drop: char -> bool, k: nat)
    requires 0 < k <= |s| && !drop(s[k - 1])
    ensures |TrimRight(s, drop)| >= k
  {
  }

  lemma TrimLeftDrops(before: string, rest: string)
    requires AllWhite(before) && (rest != "" ==> !IsWhite(rest[0]))
    ensures TrimLeft(before + rest, BLANK) == rest
  {
    hide TrimLeft, IsWhite;
    BlankCharacters();
    var s := before + rest;
    assert forall i | 0 <= i < |before| :: s[i] == before[i];
    assert rest != "" ==> s[|before|] == rest[0];
    TrimLeftStops(s, BLANK, |before|);
    assert s[|before|..] == rest;
  }

  lemma TrimRightDrops(rest: string, after: string)
    requires AllWhite(after) && (rest != "" ==> !IsWhite(rest[|rest| - 1]))
    ensures TrimRight(rest + after, BLANK) == rest
  {
    hide TrimRight, IsWhite;
    BlankCharacters();
    var s := rest + after;
    assert forall i | |rest| <= i < |s| :: s[i] == after[i - |rest|];
    assert rest != "" ==> s[|rest| - 1] == rest[|rest| - 1];
    TrimRightStops(s, BLANK, |rest|);
    assert s[..|rest|] == rest;
  }

  /** What trimming does: the white space before and after a text goes, and nothing else. */
  lemma TrimDropsBlanks(before: string, core: string, after: string)
    requires AllWhite(before) && AllWhite(after)
    requires core != "" ==> !IsWhite(core[0]) && !IsWhite(core[|core| - 1])
    ensures TrimSpace(before + core + after) == core
  {
    hide TrimLeft, TrimRight, IsWhite;
    if core == "" {
      TrimLeftDrops(before + after, "");
      TrimRightDrops("", "");
      assert before + core + after == before + after + "" && "" + "" == "";
    } else {
      TrimLeftDrops(before, core + after);
      TrimRightDrops(core, after);
      assert before + core + after == before + (core + after);
    }
  }

  lemma TrimIs(s: string)
    ensures TrimSpace(s) == TrimRight(TrimLeft(s, BLANK), BLANK)
  {
  }

  /** Trimming keeps a word without white space at the start of a text, whatever follows it. */
  lemma TrimmedHead(before: string, head: string, rest: string)
    requires AllWhite(before) && head != "" && forall i | 0 <= i < |head| :: !IsWhite(head[i])
    ensures HasPrefix(TrimSpace(before + head + rest), head)
  {
    hide TrimLeft, TrimRight, IsWhite, TrimSpace, AllWhite;
    TrimIs(before + head + rest);
    assert before + head + rest == before + (head + rest) && (head + rest)[0] == head[0];
    TrimLeftDrops(before, head + rest);
    HeadStays(head, rest);
  }

  lemma HeadStays(head: string, rest: string)
    requires head != "" && !IsWhite(head[|head| - 1])
    ensures HasPrefix(TrimRight(head + rest, BLANK), head)
  {
    hide TrimRight, IsWhite;
    BlankCharacters();
    assert (head + rest)[|head| - 1] == head[|head| - 1];
    TrimRightKeeps(head + rest, BLANK, |head|);
    assert TrimRight(head + rest, BLANK)[..|head|] == (head + rest)[..|head|] == head;
  }

  /** Lower case as the callers here need it: the ASCII letters, and the two other
      characters (Kelvin sign, dotted capital I) whose lower case is an ASCII letter. */
  function LowerChar(c: char): char {
    if 'A' <= c <= 'Z' then c - 'A' + 'a'
    else if c == '\U{212A}' then 'k'
    else if c == '\U{0130}' then 'i'
    else c
  }

  function ToLower(s: string): (r: string)
    ensures |r| == |s| && forall i | 0 <= i < |s| :: r[i] == LowerChar(s[i])
  {
    seq(|s|, i requires 0 <= i < |s| => LowerChar(s[i]))
  }

  /** The letters, spelled out. */
  lemma LowerLetters(k: nat)
    requires k < 26
    ensures LowerChar("ABCDEFGHIJKLMNOPQRSTUVWXYZ"[k]) == "abcdefghijklmnopqrstuvwxyz"[k]
  {
    assert "ABCDEFGHIJKLMNOPQRSTUVWXYZ"[k] == 'A' + k as char;
    assert "abcdefghijklmnopqrstuvwxyz"[k] == 'a' + k as char;
  }

  predicate EqualFold(a: string, b: string) {
    ToLower(a) == ToLower(b)
  }

  /** The first index of `c` in `s`, or |s|. */
  function IndexOf(s: string, c: char): (i: nat)
    ensures i <= |s|
    ensures forall j | 0 <= j < i :: s[j] != c
    ensures i < |s| ==> s[i] == c
  {
    if s == "" || s[0] == c then 0 else 1 + IndexOf(s[1..], c)
  }

  lemma IndexOfConcat(a: string, c: char, b: string)
    requires c !in a
    ensures IndexOf(a + [c] + b, c) == |a|
  {
    var s := a + [c] + b;
    assert s[|a|] == c;
    assert forall j | 0 <= j < |a| :: s[j] == a[j] && a[j] in a;
  }

  lemma IndexOfAbsent(s: string, c: char)
    requires c !in s
    ensures IndexOf(s, c) == |s|
  {
    assert forall i | 0 <= i < |s| :: s[i] in s;
  }

  function Flatten(parts: seq<string>): string {
    if parts == [] then "" else parts[0] + Flatten(parts[1..])
  }

  lemma {:induction false} FlattenConcat(a: seq<string>, b: seq<string>)
    ensures Flatten(a + b) == Flatten(a) + Flatten(b)
  {
    if a == [] {
      assert a + b == b;
    } else {
      assert (a + b)[1..] == a[1..] + b;
      FlattenConcat(a[1..], b);
    }
  }
}

/** Go's path.Clean as a stack of components, and what it gives back when read again. */
module Paths {
  import opened Prelude

  function SplitSlash(s: string): (parts: seq<string>)
    ensures parts != [] && forall i | 0 <= i < |parts| :: '/' !in parts[i]
    decreases s
  {
    var i := IndexOf(s, '/');
    if i == |s| then [s] else [s[..i]] + SplitSlash(s[i + 1..])
  }

  function Join(parts: seq<string>): string {
    if parts == [] then "" else if |parts| == 1 then parts[0] else parts[0] + "/" + Join(parts[1..])
  }

  /** A component that names an entry. */
  predicate IsName(c: string) {
    c != "" && c != "." && c != ".." && '/' !in c
  }

  predicate AllNames(parts: seq<string>) {
    forall i | 0 <= i < |parts| :: IsName(parts[i])
  }

  function Push(rooted: bool, stack: seq<string>, c: string): seq<string> {
    if c == "" || c == "." then stack
    else if c != ".." then stack + [c]
    else if stack != [] && stack[|stack| - 1] != ".." then stack[..|stack| - 1]
    else if rooted then stack
    else stack + [".."]
  }

  function Fold(rooted: bool, stack: seq<string>, parts: seq<string>): seq<string>
    decreases parts
  {
    if parts == [] then stack else Fold(rooted, Push(rooted, stack, parts[0]), parts[1..])
  }

  predicate IsRooted(s: string) {
    s != "" && s[0] == '/'
  }

  /** The components of a path once `.`, `..` and empty ones are resolved. */
  function CleanParts(s: string): seq<string> {
    Fold(IsRooted(s), [], SplitSlash(s))
  }

  function Show(rooted: bool, parts: seq<string>): string {
    if rooted then "/" + Join(parts) else if parts == [] then "." else Join(parts)
  }

  /** path.Clean. */
  function Clean(s: string): string {
    Show(IsRooted(s), CleanParts(s))
  }

  /** What a cleaned path looks like: `..` only in front, and only when the path is relative. */
  predicate Normal(rooted: bool, parts: seq<string>) {
    && (forall i | 0 <= i < |parts| :: IsName(parts[i]) || (!rooted && parts[i] == ".."))
    && (forall i, j | 0 <= i < j < |parts| :: parts[j] == ".." ==> parts[i] == "..")
  }

  lemma {:induction false} FoldNormal(rooted: bool, stack: seq<string>, parts: seq<string>)
    requires Normal(rooted, stack) && forall i | 0 <= i < |parts| :: '/' !in parts[i]
    ensures Normal(rooted, Fold(rooted, stack, parts))
    decreases parts
  {
    if parts != [] {
      FoldNormal(rooted, Push(rooted, stack, parts[0]), parts[1..]);
    }
  }

  lemma {:induction false} FoldConcat(rooted: bool, stack: seq<string>, a: seq<string>, b: seq<string>)
    ensures Fold(rooted, stack, a + b) == Fold(rooted, Fold(rooted, stack, a), b)
    decreases a
  {
    if a == [] {
      assert a + b == b;
    } else {
      assert (a + b)[1..] == a[1..] + b;
      FoldConcat(rooted, Push(rooted, stack, a[0]), a[1..], b);
    }
  }

  lemma FoldSnoc(rooted: bool, a: seq<string>, c: string)
    ensures Fold(rooted, [], a + [c]) == Push(rooted, Fold(rooted, [], a), c)
  {
    FoldConcat(rooted, [], a, [c]);
    assert [c][1..] == [];
  }

  /** Names are pushed as they are. */
  lemma {:induction false} FoldNames(rooted: bool, stack: seq<string>, parts: seq<string>)
    requires AllNames(parts)
    ensures Fold(rooted, stack, parts) == stack + parts
    decreases parts
  {
    if parts == [] {
      assert stack + parts == stack;
    } else {
      FoldNames(rooted, stack + [parts[0]], parts[1..]);
      assert stack + [parts[0]] + parts[1..] == stack + parts;
    }
  }

  lemma {:induction false} FoldNormalAgain(rooted: bool, parts: seq<string>)
    requires Normal(rooted, parts)
    ensures Fold(rooted, [], parts) == parts
    decreases parts
  {
    if parts != [] {
      var front, last := parts[..|parts| - 1], parts[|parts| - 1];
      FoldNormalAgain(rooted, front);
      FoldSnoc(rooted, front, last);
      assert parts == front + [last];
      assert last == ".." && front != [] ==> front[|front| - 1] == "..";
    }
  }

  lemma {:induction false} SplitConcat(a: string, b: string)
    ensures SplitSlash(a + "/" + b) == SplitSlash(a) + SplitSlash(b)
    decreases a
  {
    var s := a + "/" + b;
    var i := IndexOf(a, '/');
    if i == |a| {
      IndexOfConcat(a, '/', b);
      assert a + ['/'] + b == s && s[..|a|] == a && s[|a| + 1..] == b;
    } else {
      var rest := a[i + 1..];
      assert a == a[..i] + ['/'] + rest;
      assert s == a[..i] + ['/'] + (rest + "/" + b);
      IndexOfConcat(a[..i], '/', rest + "/" + b);
      assert s[..i] == a[..i] && s[i + 1..] == rest + "/" + b;
      SplitConcat(rest, b);
    }
  }

  lemma SplitNoSlash(s: string)
    requires '/' !in s
    ensures SplitSlash(s) == [s]
  {
  }

  lemma {:induction false} SplitJoin(parts: seq<string>)
    requires parts != [] && forall i | 0 <= i < |parts| :: '/' !in parts[i]
    ensures SplitSlash(Join(parts)) == parts
    decreases parts
  {
    SplitNoSlash(parts[0]);
    if |parts| > 1 {
      SplitConcat(parts[0], Join(parts[1..]));
      SplitJoin(parts[1..]);
    }
  }

  lemma SplitShow(rooted: bool, parts: seq<string>)
    requires forall i | 0 <= i < |parts| :: '/' !in parts[i]
    ensures SplitSlash(Show(rooted, parts)) ==
            (if rooted then [""] else []) + (if parts != [] then parts else if rooted then [""] else ["."])
  {
    SplitNoSlash("");
    SplitNoSlash(".");
    if parts != [] { SplitJoin(parts); }
    if rooted {
      SplitConcat("", Join(parts));
      assert "" + "/" + Join(parts) == Show(rooted, parts);
    }
  }

  /** Reading a cleaned path gives its components back. */
  lemma CleanPartsOfShow(rooted: bool, parts: seq<string>)
    requires Normal(rooted, parts)
    ensures IsRooted(Show(rooted, parts)) == rooted
    ensures CleanParts(Show(rooted, parts)) == parts
  {
    hide Fold, SplitSlash;
    SplitShow(rooted, parts);
    var s := Show(rooted, parts);
    if parts != [] && !rooted {
      assert s[0] == parts[0][0] by { JoinStarts(parts); }
    }
    if parts == [] {
      FoldBlanks(rooted);
      assert [] + ["."] == ["."];
    } else {
      FoldNormalAgain(rooted, parts);
      FoldConcat(rooted, [], [""], parts);
      FoldBlanks(rooted);
      assert [] + parts == parts;
    }
  }

  lemma FoldBlanks(rooted: bool)
    ensures Fold(rooted, [], ["."]) == []
    ensures Fold(rooted, [], [""]) == []
    ensures Fold(rooted, [], [""] + [""]) == []
  {
    assert ["."][1..] == [] && [""][1..] == [] && ([""] + [""])[1..] == [""];
  }

  lemma JoinStarts(parts: seq<string>)
    requires parts != [] && parts[0] != ""
    ensures Join(parts) != "" && Join(parts)[0] == parts[0][0]
  {
  }

  /** path.Clean is idempotent, and its result is in normal form. */
  lemma CleanIsNormal(s: string)
    ensures Normal(IsRooted(s), CleanParts(s))
    ensures IsRooted(Clean(s)) == IsRooted(s)
    ensures CleanParts(Clean(s)) == CleanParts(s)
    ensures Clean(Clean(s)) == Clean(s)
  {
    hide Fold, SplitSlash, Show;
    FoldNormal(IsRooted(s), [], SplitSlash(s));
    CleanPartsOfShow(IsRooted(s), CleanParts(s));
  }

  // ---- Rooting a path that was first cleaned as a relative one ----

  lemma PushRooted(stack: seq<string>, c: string)
    requires Normal(false, stack)
    ensures Push(true, Fold(true, [], stack), c) == Fold(true, [], Push(false, stack, c))
  {
    if c == ".." && stack != [] {
      var front, last := stack[..|stack| - 1], stack[|stack| - 1];
      assert stack == front + [last];
      FoldSnoc(true, front, last);
      if last == ".." {
        FoldDotDots(stack);
      }
    }
    FoldSnoc(true, stack, c);
  }

  lemma {:induction false} FoldDotDots(parts: seq<string>)
    requires forall i | 0 <= i < |parts| :: parts[i] == ".."
    ensures Fold(true, [], parts) == []
    decreases parts
  {
    if parts != [] { FoldDotDots(parts[1..]); }
  }

  lemma {:induction false} RootAfterFold(stack: seq<string>, parts: seq<string>)
    requires Normal(false, stack) && forall i | 0 <= i < |parts| :: '/' !in parts[i]
    ensures Fold(true, [], Fold(false, stack, parts)) == Fold(true, Fold(true, [], stack), parts)
    decreases parts
  {
    if parts != [] {
      var next := Push(false, stack, parts[0]);
      PushRooted(stack, parts[0]);
      RootAfterFold(next, parts[1..]);
    }
  }
}

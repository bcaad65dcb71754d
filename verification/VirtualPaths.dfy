/** How the chrooted SCP and SFTP servers turn a client's path into one inside the virtual root. */
module VirtualPaths {
  import opened Prelude
  import opened Paths

  function VirtualPath(raw: string): string {
    Clean("/" + TrimPrefix(raw, "/"))
  }

  function ChrootPath(raw: string, originalHome: string): string {
    if raw == "~" then "/" else
      var raw := TrimPrefix(raw, "~/");
      var cleanHome := Clean(originalHome);
      var cleanRaw := Clean(raw);
      if cleanRaw == cleanHome then "/"
      else VirtualPath(TrimPrefix(cleanRaw, cleanHome + "/"))
  }

  /** A rooted path without `.`, `..` or empty components. */
  predicate IsVirtual(p: string) {
    && IsRooted(p)
    && AllNames(CleanParts(p))
    && p == Show(true, CleanParts(p))
  }

  lemma VirtualIsVirtual(raw: string)
    ensures IsVirtual(VirtualPath(raw))
  {
    hide Fold, SplitSlash, Show;
    var s := "/" + TrimPrefix(raw, "/");
    assert IsRooted(s);
    CleanIsNormal(s);
  }

  /** Every path a client can name is mapped inside the virtual root. */
  lemma ChrootIsVirtual(raw: string, home: string)
    ensures IsVirtual(ChrootPath(raw, home))
  {
    hide Clean, Fold, SplitSlash;
    RootIsVirtual();
    if raw != "~" {
      VirtualIsVirtual(TrimPrefix(Clean(TrimPrefix(raw, "~/")), Clean(home) + "/"));
    }
  }

  lemma RootIsVirtual()
    ensures IsVirtual("/") && CleanParts("/") == []
  {
    CleanPartsOfShow(true, []);
    assert Show(true, []) == "/";
  }

  // ---- Which path it is ----

  /** The components the client means: its own path, resolved as if from the root. */
  function Meant(raw: string): seq<string> {
    Fold(true, [], SplitSlash(raw))
  }

  lemma MeantSlash(raw: string)
    ensures Meant("/" + raw) == Meant(raw)
  {
    hide Fold, SplitSlash;
    SplitConcat("", raw);
    SplitNoSlash("");
    assert "" + "/" + raw == "/" + raw;
    FoldConcat(true, [], [""], SplitSlash(raw));
    FoldBlanks(true);
  }

  lemma CleanMeans(raw: string)
    ensures Meant(Clean(raw)) == Meant(raw)
    ensures IsRooted(raw) ==> CleanParts(raw) == Meant(raw)
  {
    hide Fold, SplitSlash, Show;
    var parts := CleanParts(raw);
    CleanIsNormal(raw);
    SplitShow(IsRooted(raw), parts);
    RootAfterFold([], SplitSlash(raw));
    EmptyFold();
    FoldBlanks(true);
    if parts != [] {
      FoldConcat(true, [], [""], parts);
      assert [] + parts == parts;
      if IsRooted(raw) {
        FoldNormalAgain(true, parts);
      }
    } else {
      assert [] + ["."] == ["."];
    }
  }

  lemma EmptyFold()
    ensures Fold(true, [], []) == []
  {
  }

  lemma VirtualParts(raw: string)
    ensures CleanParts(VirtualPath(raw)) == Meant(raw)
  {
    hide Fold, SplitSlash, Show, Clean, CleanParts;
    var t := TrimPrefix(raw, "/");
    var s := "/" + t;
    assert IsRooted(s);
    CleanIsNormal(s);
    CleanMeans(s);
    MeantSlash(t);
    if HasPrefix(raw, "/") {
      assert raw == "/" + t;
    }
  }

  /** What is left of the meant components once those of the home directory are stripped. */
  function Stripped(home: string, raw: string): seq<string> {
    if IsRooted(raw) && Meant(home) <= Meant(raw) then Meant(raw)[|Meant(home)|..] else Meant(raw)
  }

  lemma {:induction false} JoinConcat(a: seq<string>, b: seq<string>)
    requires a != [] && b != []
    ensures Join(a + b) == Join(a) + "/" + Join(b)
    decreases a
  {
    if |a| == 1 {
      assert (a + b)[1..] == b;
    } else {
      assert (a + b)[1..] == a[1..] + b;
      JoinConcat(a[1..], b);
      assert a[0] + "/" + (Join(a[1..]) + "/" + Join(b)) == a[0] + "/" + Join(a[1..]) + "/" + Join(b);
    }
  }

  /** Below the home directory exactly when the home components come first. */
  lemma PrefixIsParts(home: seq<string>, raw: seq<string>)
    requires Normal(true, home) && Normal(true, raw) && home != raw
    ensures HasPrefix(Show(true, raw), Show(true, home) + "/") ==> home < raw
    ensures home < raw && home != [] ==>
              HasPrefix(Show(true, raw), Show(true, home) + "/") &&
              Show(true, raw)[|Show(true, home)| + 1..] == Join(raw[|home|..])
  {
    hide *;
    if HasPrefix(Show(true, raw), Show(true, home) + "/") {
      PrefixOfText(home, raw);
    }
    if home < raw && home != [] {
      TextOfPrefix(home, raw);
    }
  }

  lemma PrefixOfText(home: seq<string>, raw: seq<string>)
    requires Normal(true, home) && Normal(true, raw) && home != raw
    requires HasPrefix(Show(true, raw), Show(true, home) + "/")
    ensures home < raw
  {
    hide SplitSlash, Join, Show;
    var h, r := Show(true, home), Show(true, raw);
    var t := r[|h| + 1..];
    assert r == h + "/" + t;
    SplitConcat(h, t);
    SplitShow(true, home);
    SplitShow(true, raw);
    PrefixOfSplit(home, raw, SplitSlash(t));
  }

  lemma TextOfPrefix(home: seq<string>, raw: seq<string>)
    requires home < raw && home != []
    ensures HasPrefix(Show(true, raw), Show(true, home) + "/")
    ensures Show(true, raw)[|Show(true, home)| + 1..] == Join(raw[|home|..])
  {
    hide SplitSlash, Join;
    var rest := raw[|home|..];
    assert raw == home + rest;
    JoinConcat(home, rest);
    assert Show(true, raw) == Show(true, home) + "/" + Join(rest);
  }

  lemma PrefixOfSplit(home: seq<string>, raw: seq<string>, t: seq<string>)
    requires AllNames(home) && AllNames(raw) && home != raw && t != []
    requires [""] + (if raw != [] then raw else [""]) == [""] + (if home != [] then home else [""]) + t
    ensures home < raw
  {
    var l := [""] + (if raw != [] then raw else [""]);
    var m := [""] + (if home != [] then home else [""]) + t;
    assert forall i | 0 <= i < |l| :: l[i] == m[i];
    if home != [] {
      assert |raw| > |home|;
      assert forall i | 0 <= i < |home| :: raw[i] == l[i + 1] && home[i] == m[i + 1];
    }
  }

  /** The exact result for every client path and every absolute home directory. */
  lemma ChrootParts(raw: string, home: string)
    requires IsRooted(home)
    ensures CleanParts(ChrootPath(raw, home)) ==
            if raw == "~" then [] else Stripped(home, TrimPrefix(raw, "~/"))
  {
    hide Fold, SplitSlash, Show, Meant, Join, CleanParts, VirtualPath;
    RootIsVirtual();
    if raw != "~" {
      var r := TrimPrefix(raw, "~/");
      CleanMeans(home);
      CleanMeans(r);
      CleanIsNormal(home);
      CleanIsNormal(r);
      VirtualParts(TrimPrefix(Clean(r), Clean(home) + "/"));
      var hp := Meant(home);
      if !IsRooted(r) {
        assert Clean(r) != "" ==> Clean(r)[0] != '/';
        assert Clean(home)[0] == '/';
      } else if Meant(r) == hp {
        assert Meant(r)[|hp|..] == [];
      } else {
        ShowInjective(Meant(r), hp);
        PrefixIsParts(hp, Meant(r));
        if HasPrefix(Clean(r), Clean(home) + "/") && hp != [] {
          MeantJoin(Meant(r)[|hp|..]);
        } else if hp == [] {
          RootHasNoPrefix(Meant(r));
        }
      }
    }
  }

  lemma ShowInjective(a: seq<string>, b: seq<string>)
    requires Normal(true, a) && Normal(true, b)
    ensures Show(true, a) == Show(true, b) ==> a == b
  {
    CleanPartsOfShow(true, a);
    CleanPartsOfShow(true, b);
  }

  lemma RootHasNoPrefix(parts: seq<string>)
    requires AllNames(parts)
    ensures !HasPrefix(Show(true, parts), "/" + "/")
  {
    if parts != [] {
      JoinStarts(parts);
      assert parts[0][0] in parts[0];
      assert Show(true, parts)[1] == parts[0][0];
    }
  }

  lemma MeantJoin(parts: seq<string>)
    requires AllNames(parts)
    ensures Meant(Join(parts)) == parts
  {
    hide Fold, SplitSlash, Join;
    if parts == [] {
      JoinNothing();
      SplitNoSlash("");
      FoldBlanks(true);
    } else {
      SplitJoin(parts);
      FoldNames(true, [], parts);
      assert [] + parts == parts;
    }
  }

  lemma JoinNothing()
    ensures Join([]) == ""
  {
  }

  /** Both spellings of a path below the home directory lead to the same virtual path. */
  lemma HomeSpellings(home: seq<string>, s: seq<string>)
    requires AllNames(home) && home != [] && AllNames(s) && s != []
    ensures ChrootPath("~/" + Join(s), Show(true, home)) == "/" + Join(s)
    ensures ChrootPath(Show(true, home) + "/" + Join(s), Show(true, home)) == "/" + Join(s)
  {
    hide *;
    TildeSpelling(home, s);
    FullSpelling(home, s);
  }

  lemma TildeSpelling(home: seq<string>, s: seq<string>)
    requires AllNames(home) && home != [] && AllNames(s) && s != []
    ensures ChrootPath("~/" + Join(s), Show(true, home)) == "/" + Join(s)
  {
    hide Fold, SplitSlash, Join, CleanParts, ChrootPath, Meant;
    var h, tilde := Show(true, home), "~/" + Join(s);
    ChrootParts(tilde, h);
    ChrootIsVirtual(tilde, h);
    JoinStarts(s);
    assert tilde[2..] == Join(s) && Join(s)[0] in s[0];
    MeantJoin(s);
    assert tilde[1] == '/';
  }

  lemma FullSpelling(home: seq<string>, s: seq<string>)
    requires AllNames(home) && home != [] && AllNames(s) && s != []
    ensures ChrootPath(Show(true, home) + "/" + Join(s), Show(true, home)) == "/" + Join(s)
  {
    hide Fold, SplitSlash, Join, CleanParts, ChrootPath, Meant, HasPrefix;
    var h := Show(true, home);
    var full := h + "/" + Join(s);
    ChrootParts(full, h);
    ChrootIsVirtual(full, h);
    JoinConcat(home, s);
    assert full == "/" + Join(home + s);
    MeantRooted(home);
    MeantRooted(home + s);
    assert (home + s)[|home|..] == s;
    NoTilde(full);
  }

  lemma MeantRooted(parts: seq<string>)
    requires AllNames(parts) && parts != []
    ensures Meant("/" + Join(parts)) == parts
  {
    hide Meant, Join;
    MeantSlash(Join(parts));
    MeantJoin(parts);
  }

  lemma NoTilde(s: string)
    requires s != "" && s[0] == '/'
    ensures !HasPrefix(s, "~/") && s != "~"
  {
  }

  /** The path reported to the client leads back to itself exactly when it is not below the
      home directory again. */
  lemma ReportedPathIsStableIff(raw: string, home: string)
    requires IsRooted(home)
    ensures var reported := ChrootPath(raw, home);
            ChrootPath(reported, home) == reported <==>
            !(Meant(home) != [] && Meant(home) <= CleanParts(reported))
  {
    hide Fold, SplitSlash, Join, CleanParts, ChrootPath, Meant, Show;
    var reported := ChrootPath(raw, home);
    ChrootIsVirtual(raw, home);
    ChrootIsVirtual(reported, home);
    ChrootParts(reported, home);
    CleanMeans(reported);
    assert reported != "~" && !HasPrefix(reported, "~/") by { assert reported[0] == '/'; }
    var parts := CleanParts(reported);
    if Meant(home) <= parts && Meant(home) != [] {
      assert |parts[|Meant(home)|..]| < |parts|;
    } else if Meant(home) == [] {
      assert parts[0..] == parts;
    }
  }

  /** A home directory that contains a directory of its own name: the reported path moves. */
  lemma ReportedPathMoves()
    ensures ChrootPath("/u/u/x", "/u") == "/u/x"
    ensures ChrootPath("/u/x", "/u") == "/x"
  {
    hide ChrootPath;
    HomeSpellings(["u"], ["u", "x"]);
    HomeSpellings(["u"], ["x"]);
    assert Show(true, ["u"]) == "/u";
    assert Join(["u", "x"]) == "u" + "/" + "x" by { assert ["u", "x"][1..] == ["x"]; }
    assert Join(["x"]) == "x";
    assert Join(["u", "x"]) == "u/x";
    assert "/u" + "/" + "u/x" == "/u/u/x" && "/u" + "/" + "x" == "/u/x";
    assert "/" + "u/x" == "/u/x" && "/" + "x" == "/x";
  }
}

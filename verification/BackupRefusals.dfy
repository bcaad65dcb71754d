/** What both readers of a backup refuse by the spelling of a name or of a link, before they touch the file system. */
module BackupRefusals {
  import opened Prelude
  import opened Paths
  import opened FileSystem
  import opened Backup

  /** The refused spellings: rooted, or, once cleaned, ".", ".." or below "..". */
  predicate Strays(name: string) {
    (name != "" && name[0] == '/') || Clean(name) == "." || Clean(name) == ".." || HasPrefix(Clean(name), "../")
  }

  lemma StraysIff(name: string)
    ensures Strays(name) <==> !SafeName(name)
  {
    hide CleanParts, Show;
    CleanIsNormal(name);
    if !IsRooted(name) {
      ShownHead(CleanParts(name));
    }
  }

  lemma ShownHead(parts: seq<string>)
    requires Normal(false, parts)
    ensures Show(false, parts) == "." <==> parts == []
    ensures parts != [] && parts[0] == ".." <==> Show(false, parts) == ".." || HasPrefix(Show(false, parts), "../")
  {
    hide Join;
    if parts != [] {
      var s := Join(parts);
      SplitJoin(parts);
      JoinParts(parts);
      if s == "." || s == ".." {
        SplitNoSlash(s);
      } else if HasPrefix(s, "../") {
        var rest := s[3..];
        assert s == ".." + "/" + rest;
        SplitConcat("..", rest);
        SplitNoSlash("..");
      }
    }
  }

  lemma JoinParts(parts: seq<string>)
    requires parts != []
    ensures Join(parts) == parts[0] || HasPrefix(Join(parts), parts[0] + "/")
  {
    if |parts| > 1 {
      assert Join(parts)[..|parts[0]| + 1] == parts[0] + "/";
    }
  }

  /** An entry with a straying name stops both readers, whatever it holds, and changes nothing. */
  lemma StrayingEntryRefused(fs: Files, root: Path, e: Entry)
    requires Strays(e.name)
    ensures RestoreEntry(fs, root, e) == Outcome(fs, false) && MetadataEntry(fs, root, e) == Outcome(fs, false)
  {
    hide Strays, SafeName;
    StraysIff(e.name);
  }

  /** Names that stray: the empty one, "." and "..", and everything rooted or behind "../". */
  lemma StrayingNames(x: string)
    ensures Strays("") && Strays(".") && Strays("..") && Strays("/" + x) && Strays("../" + x)
  {
    hide SplitSlash;
    FoldBlanks(false);
    SplitNoSlash("");
    SplitNoSlash(".");
    SplitNoSlash("..");
    assert Fold(false, [], [""]) == [] && Fold(false, [], ["."]) == [];
    FoldSnoc(false, [], "..");
    assert [] + [".."] == [".."];
    Behind(x);
  }

  lemma Behind(x: string)
    ensures Strays("../" + x)
  {
    hide SplitSlash;
    var name := "../" + x;
    assert name == ".." + "/" + x && name[0] == '.';
    SplitConcat("..", x);
    SplitNoSlash("..");
    KeepsDots([".."], SplitSlash(x));
    FoldConcat(false, [], [".."], SplitSlash(x));
    FoldSnoc(false, [], "..");
    assert [] + [".."] == [".."];
    assert CleanParts(name)[0] == "..";
    hide Strays, CleanParts;
    StraysIff(name);
  }

  lemma {:induction false} KeepsDots(stack: seq<string>, parts: seq<string>)
    requires stack != [] && stack[0] == ".."
    ensures Fold(false, stack, parts) != [] && Fold(false, stack, parts)[0] == ".."
    decreases parts
  {
    if parts != [] {
      assert |stack| > 1 ==> stack[..|stack| - 1][0] == "..";
      KeepsDots(Push(false, stack, parts[0]), parts[1..]);
    }
  }

  /** A link whose target is rooted is refused. */
  lemma RootedLinkRefused(fs: Files, root: Path, e: Entry)
    requires e.kind.Linked? && e.kind.target != "" && e.kind.target[0] == '/'
    ensures RestoreEntry(fs, root, e) == Outcome(fs, false)
  {
    hide SafeName, PathWithin, CleanParts;
  }

  /** The metadata reader makes no link; it stops at one only if its name strays or its place is not inside. */
  lemma LinksPassedOver(fs: Files, root: Path, e: Entry)
    requires e.kind.Linked?
    ensures MetadataEntry(fs, root, e).fs == fs
    ensures MetadataEntry(fs, root, e).ok <==>
            !Strays(e.name) && (CleanParts(e.name)[0] != ".deploycp-backup" || PathWithin(fs, root + CleanParts(e.name), root))
  {
    hide Strays, SafeName, PathWithin, CleanParts;
    StraysIff(e.name);
  }

  /** The metadata reader takes what is below its own directory and passes over the rest. */
  lemma OtherNamesSkipped(fs: Files, root: Path, e: Entry)
    requires !Strays(e.name) && Clean(e.name) != ".deploycp-backup" && !HasPrefix(Clean(e.name), ".deploycp-backup/")
    ensures MetadataEntry(fs, root, e) == Outcome(fs, true)
  {
    hide Strays, PathWithin, CleanParts;
    StraysIff(e.name);
    CleanIsNormal(e.name);
    JoinParts(CleanParts(e.name));
    assert ".deploycp-backup" + "/" == ".deploycp-backup/";
  }

  /** A backup is not written exactly when some metadata name is empty, rooted, or begins with ".." once cleaned. What is
      written has names that both readers take, but for a metadata file whose name cleans to ".". */
  lemma UnsafeExtras(t: Tree, extras: seq<Extra>)
    ensures Archive(t, extras).None? <==>
            exists i | 0 <= i < |extras| ::
              extras[i].name == "" || extras[i].name[0] == '/' || HasPrefix(Clean(extras[i].name), "..")
    ensures Archive(t, extras).Some? ==>
              forall i | 0 <= i < |extras| :: Strays(Clean(extras[i].name)) <==> Clean(extras[i].name) == "."
  {
    hide Clean, Walk, Strays;
    if Archive(t, extras).Some? {
      forall i | 0 <= i < |extras| ensures Strays(Clean(extras[i].name)) <==> Clean(extras[i].name) == "." {
        assert SafeExtra(extras[i].name);
        ExtraStraysIff(extras[i].name);
      }
    }
  }

  lemma ExtraStraysIff(name: string)
    requires SafeExtra(name)
    ensures Strays(Clean(name)) <==> Clean(name) == "."
  {
    CleanIsNormal(name);
    DotsBegin(Clean(name));
    hide Clean;
  }

  lemma DotsBegin(s: string)
    ensures s == ".." || HasPrefix(s, "../") ==> HasPrefix(s, "..")
  {
    if HasPrefix(s, "../") {
      assert s[..2] == s[..3][..2] == "../"[..2] == "..";
    }
  }
}

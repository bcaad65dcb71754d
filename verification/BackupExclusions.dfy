/** Which paths the string tests of the archive writer leave out, component by component. */
module BackupExclusions {
  import opened Prelude
  import opened Paths
  import opened FileSystem
  import opened Backup

  lemma PrefixAt(s: string, u: string)
    ensures HasPrefix(s, u) <==> |u| <= |s| && forall i | 0 <= i < |u| :: s[i] == u[i]
  {
  }

  /** Two texts that both begin with a component and a slash. */
  lemma PrefixPastSlash(first: string, rest: string, a: string, t: string)
    requires '/' !in first && '/' !in a
    ensures HasPrefix(first + "/" + rest, a + "/" + t) <==> first == a && HasPrefix(rest, t)
  {
    hide HasPrefix;
    if first == a {
      PrefixCancels(a + "/", rest, t);
    } else if HasPrefix(first + "/" + rest, a + "/" + t) {
      SameHead(first, rest, a, t);
    }
  }

  lemma SameHead(first: string, rest: string, a: string, t: string)
    requires '/' !in first && '/' !in a && HasPrefix(first + "/" + rest, a + "/" + t)
    ensures first == a
  {
    var s, u := first + "/" + rest, a + "/" + t;
    PrefixAt(s, u);
    assert s[|first|] == '/' && u[|a|] == '/';
    assert forall i | 0 <= i < |first| :: s[i] == first[i] && first[i] in first;
    assert forall i | 0 <= i < |a| :: u[i] == a[i] && a[i] in a;
    assert |first| == |a|;
  }

  lemma PrefixCancels(head: string, rest: string, t: string)
    ensures HasPrefix(head + rest, head + t) <==> HasPrefix(rest, t)
  {
    PrefixAt(head + rest, head + t);
    PrefixAt(rest, t);
    assert forall i | 0 <= i < |rest| :: (head + rest)[|head| + i] == rest[i];
    assert forall i | 0 <= i < |t| :: (head + t)[|head| + i] == t[i];
  }

  lemma PrefixWithinFirst(first: string, rest: string, a: string)
    requires '/' !in a
    ensures HasPrefix(first + "/" + rest, a) <==> HasPrefix(first, a)
  {
    var s := first + "/" + rest;
    PrefixAt(s, a);
    PrefixAt(first, a);
    assert s[|first|] == '/';
    assert forall i | 0 <= i < |a| :: a[i] in a;
    assert forall i | 0 <= i < |first| :: s[i] == first[i];
  }

  lemma NoSlashNoPrefix(first: string, a: string, t: string)
    requires '/' !in first
    ensures !HasPrefix(first, a + "/" + t)
  {
    PrefixAt(first, a + "/" + t);
    assert (a + "/" + t)[|a|] == '/';
    assert forall i | 0 <= i < |first| :: first[i] in first;
  }

  lemma JoinUnfolds(p: Path)
    requires p != []
    ensures Join(p) == if |p| == 1 then p[0] else p[0] + "/" + Join(p[1..])
  {
  }

  lemma PrefixByParts(p: Path, a: string, t: string)
    requires AllNames(p) && p != [] && '/' !in a
    ensures HasPrefix(Join(p), a + "/" + t) <==> |p| >= 2 && p[0] == a && HasPrefix(Join(p[1..]), t)
  {
    hide Join, HasPrefix;
    JoinUnfolds(p);
    if |p| == 1 {
      NoSlashNoPrefix(p[0], a, t);
    } else {
      PrefixPastSlash(p[0], Join(p[1..]), a, t);
    }
  }

  lemma ThreePrefix(p: Path, a: string, b: string, c: string)
    requires AllNames(p) && p != [] && '/' !in a && '/' !in b && '/' !in c
    ensures HasPrefix(Join(p), a + "/" + (b + "/" + c)) <==>
            |p| >= 3 && p[0] == a && p[1] == b && HasPrefix(p[2], c)
  {
    hide Join, HasPrefix;
    PrefixByParts(p, a, b + "/" + c);
    if |p| >= 2 {
      PrefixByParts(p[1..], b, c);
      if |p| >= 3 {
        assert p[1..][1..] == p[2..];
        JoinUnfolds(p[2..]);
        if |p| > 3 { PrefixWithinFirst(p[2], Join(p[2..][1..]), c); }
      }
    }
  }

  lemma KeyPrefix(p: Path)
    requires AllNames(p) && p != []
    ensures HasPrefix(Join(p), DEPLOY_KEY) <==>
            |p| >= 3 && p[0] == ".deploycp" && p[1] == "deploy" && HasPrefix(p[2], "id_deploy")
  {
    hide Join, HasPrefix;
    KeySpelled();
    NoSlashInKey();
    ThreePrefix(p, ".deploycp", "deploy", "id_deploy");
  }

  lemma NoSlashInKey()
    ensures '/' !in ".deploycp" && '/' !in "deploy" && '/' !in "id_deploy"
  {
  }

  lemma KeySpelled()
    ensures DEPLOY_KEY == ".deploycp" + "/" + ("deploy" + "/" + "id_deploy")
  {
  }

  lemma MetadataPrefix(p: Path)
    requires AllNames(p) && p != []
    ensures Join(p) == METADATA || HasPrefix(Join(p), METADATA + "/") <==> p[0] == METADATA
  {
    hide Join;
    JoinUnfolds(p);
    assert METADATA + "/" == METADATA + "/" + "";
    PrefixByParts(p, METADATA, "");
    if |p| >= 2 {
      assert Join(p)[|p[0]|] == '/' && Join(p)[|p[0]|] in Join(p);
    }
  }

  /** Exactly what a backup leaves out: the metadata directory, and below .deploycp/deploy every
      entry whose name begins with id_deploy, not only the key of that name. */
  lemma ExcludedExactly(p: Path)
    requires AllNames(p) && p != []
    ensures Excluded(Join(p)) <==>
            || p[0] == ".deploycp-backup"
            || (|p| >= 3 && p[0] == ".deploycp" && p[1] == "deploy" && HasPrefix(p[2], "id_deploy"))
  {
    hide Join, HasPrefix;
    KeyPrefix(p);
    MetadataPrefix(p);
  }
}

/** What `cleanObject` leaves of a translation tree, and what it does to the keys a sync pass sets. */
module TranslationClean {
  import opened Prelude
  import Strings
  import opened TranslationTree

  /** Prefixes of keys built at run time, which are kept. */
  const DYNAMIC_PREFIXES: seq<string> := [
    "videoGeneration.loading", "view_names.", "fontPicker.readability.", "shortcut_categories.",
    "media_library.", "common.", "editor.", "showcaseStartupModal.", "fontPicker.", "app.",
    "onboarding.", "licensing.", "settings_nav.", "business_profile.", "display_tab.", "player_tab.",
    "content_design_tab.", "security_tab.", "imageGeneration.", "videoGeneration.", "scheduler.",
    "system_status.", "hardware_tab.", "hardware.", "camera.", "settings."]

  predicate KeyUsed(extracted: set<string>, prefixes: seq<string>, keyPath: string) {
    keyPath in extracted || exists i :: 0 <= i < |prefixes| && prefixes[i] <= keyPath
  }

  method IsKeyUsed(extracted: set<string>, prefixes: seq<string>, keyPath: string) returns (used: bool)
    ensures used == KeyUsed(extracted, prefixes, keyPath)
  {
    if keyPath in extracted {
      return true;
    }
    for i := 0 to |prefixes|
      invariant forall j :: 0 <= j < i ==> !(prefixes[j] <= keyPath)
    {
      if prefixes[i] <= keyPath {
        return true;
      }
    }
    return false;
  }

  /** The script's name for a property: an empty prefix counts as none. */
  function FullPath(prefix: string, key: string): string {
    if prefix == "" then key else prefix + "." + key
  }

  /** The script's name for a path. */
  function PathName(prefix: string, path: Path): string
    decreases |path|
  {
    if path == [] then prefix else PathName(FullPath(prefix, path[0]), path[1..])
  }

  /** What is left of an object. */
  function Clean(t: Json, prefix: string, used: string -> bool): (r: Json)
    requires t.Obj?
    ensures r.Obj?
    decreases t, 0
  {
    Obj(map k | k in t.props && Cleaned(t.props[k], FullPath(prefix, k), used).Some?
          :: Cleaned(t.props[k], FullPath(prefix, k), used).value)
  }

  /** What is left of a property, if anything: a leaf stays if used, an object if something in it does. */
  function Cleaned(j: Json, name: string, used: string -> bool): Option<Json>
    decreases j, 1
  {
    if j.Obj? then
      var c := Clean(j, name, used);
      if c.props == map[] then None else Some(c)
    else if used(name) then Some(j) else None
  }

  /** The leaf at a path: a value there that is not an object. */
  function LeafAt(t: Props, path: Path): Option<Json> {
    var j := Get(t, path);
    if j.Some? && j.value.Obj? then None else j
  }

  /** Exactness: the leaves left are the used ones, with their values, at every path of any tree. */
  lemma {:induction false} CleanLeaves(t: Json, prefix: string, used: string -> bool, path: Path)
    requires t.Obj? && path != []
    ensures LeafAt(Clean(t, prefix, used).props, path)
         == if used(PathName(prefix, path)) then LeafAt(t.props, path) else None
    decreases |path|
  {
    var k, r := path[0], Clean(t, prefix, used);
    if k in t.props {
      var name := FullPath(prefix, k);
      if |path| == 1 {
        assert path[1..] == [] && PathName(prefix, path) == name;
      } else if t.props[k].Obj? {
        CleanLeaves(t.props[k], name, used, path[1..]);
      }
    }
  }

  /** No object inside is empty. */
  predicate Solid(j: Json)
    decreases j
  {
    j.Obj? ==> forall k :: k in j.props ==> j.props[k] != Obj(map[]) && Solid(j.props[k])
  }

  lemma {:induction false} CleanSolid(t: Json, prefix: string, used: string -> bool)
    requires t.Obj?
    ensures Solid(Clean(t, prefix, used))
    decreases t
  {
    forall k | k in Clean(t, prefix, used).props
      ensures Solid(Clean(t, prefix, used).props[k]) && Clean(t, prefix, used).props[k] != Obj(map[])
    {
      if t.props[k].Obj? { CleanSolid(t.props[k], FullPath(prefix, k), used); }
    }
  }

  /** A second run finds nothing to remove. */
  lemma {:induction false} CleanIdempotent(t: Json, prefix: string, used: string -> bool)
    requires t.Obj?
    ensures Clean(Clean(t, prefix, used), prefix, used) == Clean(t, prefix, used)
    decreases t
  {
    var r := Clean(t, prefix, used);
    forall k | k in r.props ensures Cleaned(r.props[k], FullPath(prefix, k), used) == Some(r.props[k]) {
      var child, name := t.props[k], FullPath(prefix, k);
      assert r.props[k] == Cleaned(child, name, used).value;
      if child.Obj? {
        CleanIdempotent(child, name, used);
        assert r.props[k] == Clean(child, name, used);
        assert Cleaned(r.props[k], name, used) == Some(Clean(r.props[k], name, used));
      }
    }
    assert Clean(r, prefix, used).props == r.props;
  }

  // ----- counting leaves -----

  /** The paths of the leaves of a value, from the value down. */
  ghost function Leaves(j: Json): set<Path>
    decreases j
  {
    if j.Obj? then set k, p | k in j.props && p in Leaves(j.props[k]) :: [k] + p else {[]}
  }

  ghost function Under(k: string, paths: set<Path>): set<Path> { set p | p in paths :: [k] + p }

  lemma {:induction false} UnderSize(k: string, paths: set<Path>)
    ensures |Under(k, paths)| == |paths|
    decreases paths
  {
    if paths == {} {
    } else {
      var p :| p in paths;
      UnderSize(k, paths - {p});
      assert Under(k, paths) == Under(k, paths - {p}) + {[k] + p};
      forall q | q in paths - {p} ensures [k] + q != [k] + p {
        assert ([k] + q)[1..] == q && ([k] + p)[1..] == p;
      }
    }
  }

  lemma LeavesWithout(t: Props, k: string)
    requires k in t
    ensures |Leaves(Obj(t))| == |Leaves(Obj(t - {k}))| + |Leaves(t[k])|
  {
    var rest, under := Leaves(Obj(t - {k})), Under(k, Leaves(t[k]));
    assert Leaves(Obj(t)) == rest + under by {
      forall p | p in Leaves(Obj(t)) ensures p in rest + under {
        var l, q :| l in t && q in Leaves(t[l]) && p == [l] + q;
        assert l != k ==> l in t - {k} && (t - {k})[l] == t[l];
      }
      forall p | p in rest ensures p in Leaves(Obj(t)) {
        var l, q :| l in t - {k} && q in Leaves((t - {k})[l]) && p == [l] + q;
        assert l in t && q in Leaves(t[l]);
      }
    }
    assert rest !! under by {
      forall p | p in rest ensures p !in under {
        var l, q :| l in t - {k} && q in Leaves((t - {k})[l]) && p == [l] + q;
        assert p[0] == l;
      }
    }
    UnderSize(k, Leaves(t[k]));
  }

  lemma LeavesReplaced(t: Props, k: string, j: Json)
    requires k in t
    ensures |Leaves(Obj(t[k := j]))| + |Leaves(t[k])| == |Leaves(Obj(t))| + |Leaves(j)|
  {
    LeavesWithout(t, k);
    LeavesWithout(t[k := j], k);
    assert t[k := j] - {k} == t - {k};
  }

  /** The paths counted are those of the leaves. */
  lemma {:induction false} LeavesAreLeaves(t: Json, path: Path)
    requires t.Obj?
    ensures path in Leaves(t) <==> path != [] && LeafAt(t.props, path).Some?
    decreases |path|
  {
    if path == [] {
    } else {
      var k := path[0];
      assert path == [k] + path[1..];
      forall l, q | l in t.props && q in Leaves(t.props[l]) && path == [l] + q ensures l == k && q == path[1..] {
        assert ([l] + q)[1..] == q;
      }
      if k in t.props && t.props[k].Obj? { LeavesAreLeaves(t.props[k], path[1..]); }
    }
  }

  ghost predicate AllUsed(t: Json, prefix: string, used: string -> bool) {
    forall p :: p in Leaves(t) ==> used(PathName(prefix, p))
  }

  lemma CleanKeepsAllIff(t: Json, prefix: string, used: string -> bool)
    requires t.Obj?
    ensures |Leaves(Clean(t, prefix, used))| <= |Leaves(t)|
    ensures |Leaves(Clean(t, prefix, used))| == |Leaves(t)| <==> AllUsed(t, prefix, used)
  {
    hide Clean, LeafAt;
    var all, left := Leaves(t), Leaves(Clean(t, prefix, used));
    forall p ensures p in left <==> p in all && used(PathName(prefix, p)) {
      LeavesAreLeaves(t, p);
      LeavesAreLeaves(Clean(t, prefix, used), p);
      if p != [] { CleanLeaves(t, prefix, used, p); }
    }
    assert all == left + (all - left);
  }

  lemma {:induction false} AllUsedUnchangedIff(t: Json, prefix: string, used: string -> bool)
    requires t.Obj? && AllUsed(t, prefix, used)
    ensures Clean(t, prefix, used) == t <==> Solid(t)
    decreases t
  {
    CleanSolid(t, prefix, used);
    if Solid(t) {
      forall k | k in t.props ensures Cleaned(t.props[k], FullPath(prefix, k), used) == Some(t.props[k]) {
        var name := FullPath(prefix, k);
        forall p | p in Leaves(t.props[k]) ensures used(PathName(name, p)) {
          assert [k] + p in Leaves(t) && ([k] + p)[1..] == p;
        }
        if t.props[k].Obj? {
          AllUsedUnchangedIff(t.props[k], name, used);
        } else {
          assert [] in Leaves(t.props[k]);
        }
      }
      assert Clean(t, prefix, used).props == t.props;
    }
  }

  /**
    A run that counts no removal does not write the file.  The tree it leaves in
    memory is then the one in the file exactly when that holds no empty object
    inside: empty objects are deleted but not counted.
   */
  lemma UncountedRemovals(t: Json, prefix: string, used: string -> bool)
    requires t.Obj? && |Leaves(Clean(t, prefix, used))| == |Leaves(t)|
    ensures Clean(t, prefix, used) == t <==> Solid(t)
  {
    hide Clean, Leaves, Solid;
    CleanKeepsAllIff(t, prefix, used);
    AllUsedUnchangedIff(t, prefix, used);
  }

  // ----- cleaning after syncing -----

  /** The key without its leading dots. */
  function Undotted(key: string): string {
    if key != "" && key[0] == '.' then Undotted(key[1..]) else key
  }

  lemma {:induction false} PathNameOf(prefix: string, path: Path)
    requires path != []
    ensures prefix != "" ==> PathName(prefix, path) == prefix + "." + Strings.Join(path, '.')
    ensures prefix == "" && path[0] != "" ==> PathName(prefix, path) == Strings.Join(path, '.')
    decreases |path|
  {
    var name := FullPath(prefix, path[0]);
    if |path| > 1 {
      PathNameOf(name, path[1..]);
    } else {
      assert path[1..] == [];
    }
  }

  lemma SplitHead(key: string)
    ensures key != "" && key[0] == '.' ==> Split(key) == [""] + Split(key[1..])
    ensures key != "" && key[0] != '.' ==> Split(key)[0] != ""
    ensures key == "" ==> Split(key) == [""]
  {
  }

  /** `split('.')` in one script and the dotted joining in the other: what the clean calls an extracted key. */
  lemma {:induction false} NameOfKey(key: string)
    ensures PathName("", Split(key)) == Undotted(key)
  {
    SplitHead(key);
    if key == "" {
      assert [""][1..] == [];
    } else if key[0] == '.' {
      NameOfKey(key[1..]);
      assert Split(key)[1..] == Split(key[1..]);
    } else {
      PathNameOf("", Split(key));
      Strings.JoinSplit(key, '.');
    }
  }

  lemma {:induction false} UndottedShorter(key: string)
    ensures |Undotted(key)| <= |key|
  {
    if key != "" && key[0] == '.' { UndottedShorter(key[1..]); }
  }

  /** The two scripts name a path alike exactly for keys without a leading dot. */
  lemma KeyNamesAgreeIff(key: string)
    ensures PathName("", Split(key)) == key <==> key == "" || key[0] != '.'
  {
    NameOfKey(key);
    if key != "" { UndottedShorter(key[1..]); }
  }

  /** What a clean leaves at a key after a sync: the leaf there if the key is used without its leading dots. */
  lemma CleanAfterSync(t: Props, entries: seq<Entry>, extracted: set<string>, prefixes: seq<string>, key: string)
    ensures LeafAt(Clean(Obj(Pass(t, entries)), "", name => KeyUsed(extracted, prefixes, name)).props, Split(key))
         == if KeyUsed(extracted, prefixes, Undotted(key)) then LeafAt(Pass(t, entries), Split(key)) else None
  {
    hide KeyUsed, LeafAt, Clean, Pass;
    NameOfKey(key);
    CleanLeaves(Obj(Pass(t, entries)), "", name => KeyUsed(extracted, prefixes, name), Split(key));
  }

  /**
    The extracted keys that a clean takes away after a sync has placed them: exactly
    those with a leading dot whose undotted form is not extracted and starts with no
    dynamic prefix.
   */
  lemma ExtractedKeyLostIff(t: Props, entries: seq<Entry>, extracted: set<string>, prefixes: seq<string>, key: string)
    requires key in extracted && LeafAt(Pass(t, entries), Split(key)).Some?
    ensures LeafAt(Clean(Obj(Pass(t, entries)), "", name => KeyUsed(extracted, prefixes, name)).props, Split(key)).None?
       <==> && key != "" && key[0] == '.' && Undotted(key) !in extracted
            && forall i :: 0 <= i < |prefixes| ==> !(prefixes[i] <= Undotted(key))
  {
    hide LeafAt, Clean, Pass;
    CleanAfterSync(t, entries, extracted, prefixes, key);
    if key == "" || key[0] != '.' { assert Undotted(key) == key; }
  }

  /** With the script's own prefixes: `.b` is lost when only it is extracted, and `.app.b` is not. */
  lemma LeadingDotIsCleaned(t: Props, entries: seq<Entry>)
    requires LeafAt(Pass(t, entries), Split(".b")).Some? && LeafAt(Pass(t, entries), Split(".app.b")).Some?
    ensures var used := name => KeyUsed({".b", ".app.b"}, DYNAMIC_PREFIXES, name);
            var after := Clean(Obj(Pass(t, entries)), "", used).props;
            LeafAt(after, Split(".b")).None? && LeafAt(after, Split(".app.b")).Some?
  {
    hide LeafAt, Clean, Pass;
    var extracted := {".b", ".app.b"};
    ExtractedKeyLostIff(t, entries, extracted, DYNAMIC_PREFIXES, ".b");
    ExtractedKeyLostIff(t, entries, extracted, DYNAMIC_PREFIXES, ".app.b");
    assert Undotted(".b") == "b" && |".b"| == 2 && |".app.b"| == 6;
    assert forall i :: 0 <= i < |DYNAMIC_PREFIXES| ==> |DYNAMIC_PREFIXES[i]| > 1;
    assert Undotted(".app.b") == "app.b";
    assert DYNAMIC_PREFIXES[9] == "app." && "app." <= "app.b";
  }
}

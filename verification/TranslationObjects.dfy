/**
  `setDeep`, the sync pass and `cleanObject` on objects that are changed in place.

  A parsed file is a tree of objects: its shape says which object sits where.  The
  lemmas speak of a snapshot of the properties of a set of objects, so that they
  need no heap; the methods relate the snapshots before and after.
 */
module TranslationObjects {
  import opened Prelude
  import opened TranslationTree
  import opened TranslationClean

  class JsObject {
    var props: map<string, Value>

    constructor ()
      ensures props == map[]
    {
      props := map[];
    }
  }

  datatype Value = Str(s: string) | Prim(id: int) | Ref(obj: JsObject)

  datatype Shape = Shape(obj: JsObject, kids: map<string, Shape>)

  type Store = map<JsObject, map<string, Value>>

  ghost function Snapshot(objs: set<JsObject>): Store
    reads objs
  {
    map o | o in objs :: o.props
  }

  ghost function Objects(sh: Shape): set<JsObject>
    decreases sh
  {
    {sh.obj} + set k, o | k in sh.kids && o in Objects(sh.kids[k]) :: o
  }

  /** No object sits in two places. */
  ghost predicate IsTree(sh: Shape)
    decreases sh
  {
    && (forall k :: k in sh.kids ==> IsTree(sh.kids[k]) && sh.obj !in Objects(sh.kids[k]))
    && (forall k, l :: k in sh.kids && l in sh.kids && k != l ==> Objects(sh.kids[k]) !! Objects(sh.kids[l]))
  }

  /** The references in the store are those of the shape. */
  ghost predicate Fits(st: Store, sh: Shape)
    decreases sh
  {
    && sh.obj in st
    && (forall k :: k in st[sh.obj] ==> (st[sh.obj][k].Ref? <==> k in sh.kids))
    && (forall k :: k in sh.kids ==>
          k in st[sh.obj] && st[sh.obj][k] == Ref(sh.kids[k].obj) && Fits(st, sh.kids[k]))
  }

  /** The tree the objects stand for. */
  ghost function Read(st: Store, sh: Shape): (t: Json)
    requires Fits(st, sh)
    ensures t.Obj? && t.props.Keys == st[sh.obj].Keys
    decreases sh
  {
    Obj(map k | k in st[sh.obj] ::
          match st[sh.obj][k]
          case Str(s) => Text(s)
          case Prim(id) => Scalar(id)
          case Ref(_) => Read(st, sh.kids[k]))
  }

  ghost predicate SameOn(st: Store, st': Store, objs: set<JsObject>) {
    forall o :: o in objs ==> o in st && o in st' && st[o] == st'[o]
  }

  /** A tree is unchanged when its objects are. */
  lemma {:induction false} ReadFrame(st: Store, st': Store, sh: Shape)
    requires Fits(st, sh) && SameOn(st, st', Objects(sh))
    ensures Fits(st', sh) && Read(st', sh) == Read(st, sh)
    decreases sh
  {
    forall k | k in sh.kids ensures Fits(st', sh.kids[k]) && Read(st', sh.kids[k]) == Read(st, sh.kids[k]) {
      assert forall o :: o in Objects(sh.kids[k]) ==> o in Objects(sh);
      ReadFrame(st, st', sh.kids[k]);
    }
  }

  // ----- changing one place of a tree -----

  ghost predicate Has(sh: Shape, q: Path)
    decreases |q|
  {
    q == [] || (q[0] in sh.kids && Has(sh.kids[q[0]], q[1..]))
  }

  ghost function Sub(sh: Shape, q: Path): Shape
    requires Has(sh, q)
    decreases |q|
  {
    if q == [] then sh else Sub(sh.kids[q[0]], q[1..])
  }

  ghost function Replace(sh: Shape, q: Path, part: Shape): Shape
    requires Has(sh, q)
    decreases |q|
  {
    if q == [] then part else Shape(sh.obj, sh.kids[q[0] := Replace(sh.kids[q[0]], q[1..], part)])
  }

  /** The tree with the object at `q` given other properties. */
  function Graft(t: Props, q: Path, c: Props): Props
    requires ObjectAt(t, q)
    decreases |q|
  {
    if q == [] then c else t[q[0] := Obj(Graft(t[q[0]].props, q[1..], c))]
  }

  predicate ObjectAt(t: Props, q: Path)
    decreases |q|
  {
    q == [] || (q[0] in t && t[q[0]].Obj? && ObjectAt(t[q[0]].props, q[1..]))
  }

  function PropsAt(t: Props, q: Path): Props
    requires ObjectAt(t, q)
    decreases |q|
  {
    if q == [] then t else PropsAt(t[q[0]].props, q[1..])
  }

  lemma KidFacts(st: Store, sh: Shape, k: string)
    requires Fits(st, sh) && IsTree(sh) && k in sh.kids
    ensures var kid := sh.kids[k];
            && Fits(st, kid) && IsTree(kid) && Objects(kid) <= Objects(sh) && sh.obj in Objects(sh) - Objects(kid)
            && k in st[sh.obj] && st[sh.obj][k] == Ref(kid.obj) && Read(st, sh).props[k] == Read(st, kid)
    ensures forall l :: l in sh.kids && l != k ==> Objects(sh.kids[l]) <= Objects(sh) - Objects(sh.kids[k])
  {
  }

  lemma {:induction false} SubFits(st: Store, sh: Shape, q: Path)
    requires Fits(st, sh) && IsTree(sh) && Has(sh, q)
    ensures Fits(st, Sub(sh, q)) && IsTree(Sub(sh, q)) && Objects(Sub(sh, q)) <= Objects(sh)
    ensures ObjectAt(Read(st, sh).props, q) && PropsAt(Read(st, sh).props, q) == Read(st, Sub(sh, q)).props
    decreases |q|
  {
    hide Fits, IsTree, Objects, Read;
    if q == [] {
    } else {
      KidFacts(st, sh, q[0]);
      SubFits(st, sh.kids[q[0]], q[1..]);
    }
  }

  /** Another part at `q`, made of the objects that were there and new ones; nothing else changed. */
  ghost predicate CanReplace(st: Store, st': Store, sh: Shape, q: Path, part: Shape) {
    && IsTree(sh) && Fits(st, sh) && Has(sh, q)
    && IsTree(part) && Fits(st', part) && part.obj == Sub(sh, q).obj
    && (Objects(part) - Objects(Sub(sh, q))) !! Objects(sh)
    && SameOn(st, st', Objects(sh) - Objects(Sub(sh, q)))
  }

  lemma {:induction false} ReplaceAt(st: Store, st': Store, sh: Shape, q: Path, part: Shape)
    requires CanReplace(st, st', sh, q, part)
    ensures var r := Replace(sh, q, part);
            && IsTree(r) && Fits(st', r) && r.obj == sh.obj
            && Objects(r) <= (Objects(sh) - Objects(Sub(sh, q))) + Objects(part)
            && ObjectAt(Read(st, sh).props, q)
            && Read(st', r).props == Graft(Read(st, sh).props, q, Read(st', part).props)
            && Has(r, q) && Sub(r, q) == part
    decreases |q|
  {
    hide Fits, IsTree, Objects, Read;
    if q == [] {
    } else {
      var kid := sh.kids[q[0]];
      KidFacts(st, sh, q[0]);
      SubFits(st, kid, q[1..]);
      ReplaceAt(st, st', kid, q[1..], part);
      ReplaceKid(st, st', sh, q[0], Replace(kid, q[1..], part));
    }
  }

  /** Another kid under `k`, made of the objects that were there and new ones; nothing else changed. */
  ghost predicate CanReplaceKid(st: Store, st': Store, sh: Shape, k: string, kid: Shape) {
    && IsTree(sh) && Fits(st, sh) && k in sh.kids
    && IsTree(kid) && Fits(st', kid) && kid.obj == sh.kids[k].obj
    && (Objects(kid) - Objects(sh.kids[k])) !! Objects(sh)
    && SameOn(st, st', Objects(sh) - Objects(sh.kids[k]))
  }

  lemma OtherKid(st: Store, st': Store, sh: Shape, k: string, kid: Shape, l: string)
    requires CanReplaceKid(st, st', sh, k, kid) && l in sh.kids && l != k
    ensures Fits(st, sh.kids[l]) && Fits(st', sh.kids[l]) && Read(st', sh.kids[l]) == Read(st, sh.kids[l])
    ensures IsTree(sh.kids[l]) && Objects(sh.kids[l]) !! Objects(kid) && sh.obj !in Objects(sh.kids[l])
  {
    hide Fits, IsTree, Objects, Read;
    KidFacts(st, sh, k);
    KidFacts(st, sh, l);
    ReadFrame(st, st', sh.kids[l]);
  }

  lemma ReplaceKidTree(st: Store, st': Store, sh: Shape, k: string, kid: Shape)
    requires CanReplaceKid(st, st', sh, k, kid)
    ensures IsTree(Shape(sh.obj, sh.kids[k := kid]))
  {
    hide Fits, Read, Objects;
    var r := Shape(sh.obj, sh.kids[k := kid]);
    KidFacts(st, sh, k);
    forall l | l in sh.kids && l != k
      ensures IsTree(sh.kids[l]) && Objects(sh.kids[l]) !! Objects(kid) && sh.obj !in Objects(sh.kids[l])
    {
      OtherKid(st, st', sh, k, kid, l);
    }
  }

  lemma ReplaceKidObjects(st: Store, st': Store, sh: Shape, k: string, kid: Shape)
    requires CanReplaceKid(st, st', sh, k, kid)
    ensures Objects(Shape(sh.obj, sh.kids[k := kid])) <= (Objects(sh) - Objects(sh.kids[k])) + Objects(kid)
  {
    hide Fits, Read, IsTree;
    var r := Shape(sh.obj, sh.kids[k := kid]);
    KidFacts(st, sh, k);
    forall o | o in Objects(r) ensures o in (Objects(sh) - Objects(sh.kids[k])) + Objects(kid) {
      if o != sh.obj {
        var l :| l in r.kids && o in Objects(r.kids[l]);
        assert l != k ==> r.kids[l] == sh.kids[l];
      }
    }
  }

  lemma ReplaceKidFits(st: Store, st': Store, sh: Shape, k: string, kid: Shape)
    requires CanReplaceKid(st, st', sh, k, kid)
    ensures Fits(st', Shape(sh.obj, sh.kids[k := kid])) && st'[sh.obj] == st[sh.obj]
  {
    hide IsTree, Objects, Read;
    KidFacts(st, sh, k);
    assert st'[sh.obj] == st[sh.obj];
    forall l | l in sh.kids && l != k ensures Fits(st', sh.kids[l]) {
      OtherKid(st, st', sh, k, kid, l);
    }
  }

  lemma ReplaceKid(st: Store, st': Store, sh: Shape, k: string, kid: Shape)
    requires CanReplaceKid(st, st', sh, k, kid)
    ensures var r := Shape(sh.obj, sh.kids[k := kid]);
            && IsTree(r) && Fits(st', r)
            && Objects(r) <= (Objects(sh) - Objects(sh.kids[k])) + Objects(kid)
            && Read(st', r).props == Read(st, sh).props[k := Read(st', kid)]
  {
    hide IsTree, Objects, Fits;
    ReplaceKidTree(st, st', sh, k, kid);
    ReplaceKidObjects(st, st', sh, k, kid);
    ReplaceKidFits(st, st', sh, k, kid);
    KidFacts(st, sh, k);
    FitsRefs(st, sh);
    var r := Shape(sh.obj, sh.kids[k := kid]);
    forall l | l in st[sh.obj]
      ensures Read(st', r).props[l] == if l == k then Read(st', kid) else Read(st, sh).props[l]
    {
      if l != k && l in sh.kids { OtherKid(st, st', sh, k, kid, l); }
    }
  }

  lemma FitsRefs(st: Store, sh: Shape)
    requires Fits(st, sh)
    ensures sh.obj in st && forall k :: k in st[sh.obj] ==> (st[sh.obj][k].Ref? <==> k in sh.kids)
    ensures forall k :: k in sh.kids ==> k in st[sh.obj] && st[sh.obj][k] == Ref(sh.kids[k].obj)
  {
  }

  // ----- walking down and setting, on values -----

  lemma {:induction false} WalkSet(t: Props, q: Path, rest: Path, v: string)
    requires ObjectAt(t, q) && rest != []
    ensures Sets(t, q + rest) == Sets(PropsAt(t, q), rest)
    ensures Set(t, q + rest, v) == Graft(t, q, Set(PropsAt(t, q), rest, v))
    decreases |q|
  {
    if q == [] {
      assert q + rest == rest;
    } else {
      assert (q + rest)[1..] == q[1..] + rest;
      WalkSet(t[q[0]].props, q[1..], rest, v);
    }
  }

  lemma {:induction false} GraftTwice(t: Props, q: Path, c: Props, d: Props)
    requires ObjectAt(t, q)
    ensures ObjectAt(Graft(t, q, c), q) && PropsAt(Graft(t, q, c), q) == c
    ensures Graft(Graft(t, q, c), q, d) == Graft(t, q, d)
    decreases |q|
  {
    if q == [] {
    } else {
      GraftTwice(t[q[0]].props, q[1..], c, d);
    }
  }

  /** Creating an empty object on the way, where there is no string and no object, changes no outcome. */
  lemma CreateOnTheWay(t: Props, q: Path, p: string, rest: Path, v: string)
    requires ObjectAt(t, q) && rest != []
    requires p in PropsAt(t, q) ==> PropsAt(t, q)[p].Scalar?
    ensures var u := Graft(t, q, PropsAt(t, q)[p := Obj(map[])]);
            && Sets(u, q + ([p] + rest)) == Sets(t, q + ([p] + rest))
            && Set(u, q + ([p] + rest), v) == Set(t, q + ([p] + rest), v)
  {
    var c, d := PropsAt(t, q), PropsAt(t, q)[p := Obj(map[])];
    var u, tail := Graft(t, q, d), [p] + rest;
    assert tail[1..] == rest && Below(c, p) == map[] == Below(d, p);
    assert Sets(c, tail) == Sets(d, tail) && Set(c, tail, v) == Set(d, tail, v);
    GraftTwice(t, q, d, Set(d, tail, v));
    WalkSet(t, q, tail, v);
    WalkSet(u, q, tail, v);
  }

  // ----- one write, on a snapshot -----

  lemma KidKept(st: Store, st': Store, sh: Shape, l: string)
    requires IsTree(sh) && Fits(st, sh) && l in sh.kids && SameOn(st, st', Objects(sh) - {sh.obj})
    ensures Fits(st, sh.kids[l]) && Fits(st', sh.kids[l]) && Read(st', sh.kids[l]) == Read(st, sh.kids[l])
    ensures IsTree(sh.kids[l]) && Objects(sh.kids[l]) <= Objects(sh) - {sh.obj}
  {
    hide IsTree, Fits, Read, Objects;
    KidFacts(st, sh, l);
    ReadFrame(st, st', sh.kids[l]);
  }

  /** `sh` with a new, empty object `o` under `p`. */
  function WithObject(sh: Shape, p: string, o: JsObject): Shape {
    Shape(sh.obj, sh.kids[p := Shape(o, map[])])
  }

  lemma WithObjectTree(sh: Shape, p: string, o: JsObject)
    requires IsTree(sh) && p !in sh.kids && o !in Objects(sh)
    ensures IsTree(WithObject(sh, p, o)) && Objects(WithObject(sh, p, o)) <= Objects(sh) + {o}
  {
    var r := WithObject(sh, p, o);
    assert Objects(Shape(o, map[])) == {o};
    forall l | l in sh.kids ensures Objects(sh.kids[l]) <= Objects(sh) && r.kids[l] == sh.kids[l] {
    }
  }

  /** The store after `current[p] = {}`. */
  ghost predicate ObjectAdded(st: Store, st': Store, sh: Shape, p: string, o: JsObject) {
    && IsTree(sh) && Fits(st, sh) && p !in sh.kids && o !in Objects(sh)
    && sh.obj in st' && st'[sh.obj] == st[sh.obj][p := Ref(o)] && o in st' && st'[o] == map[]
    && SameOn(st, st', Objects(sh) - {sh.obj})
  }

  lemma AddObjectFits(st: Store, st': Store, sh: Shape, p: string, o: JsObject)
    requires ObjectAdded(st, st', sh, p, o)
    ensures Fits(st', WithObject(sh, p, o))
  {
    hide IsTree, Objects, Read;
    FitsRefs(st, sh);
    forall l | l in sh.kids ensures Fits(st', sh.kids[l]) {
      KidKept(st, st', sh, l);
    }
    assert Fits(st', Shape(o, map[]));
  }

  lemma ReadAt(st: Store, sh: Shape, k: string)
    requires Fits(st, sh)
    ensures sh.obj in st && Read(st, sh).props.Keys == st[sh.obj].Keys
    ensures k in sh.kids ==> k in st[sh.obj] && Fits(st, sh.kids[k]) && Read(st, sh).props[k] == Read(st, sh.kids[k])
    ensures k in st[sh.obj] && k !in sh.kids ==> !st[sh.obj][k].Ref? && Read(st, sh).props[k] == AsJson(st[sh.obj][k])
  {
  }

  lemma AddObjectAt(st: Store, st': Store, sh: Shape, p: string, o: JsObject, l: string)
    requires ObjectAdded(st, st', sh, p, o) && Fits(st', WithObject(sh, p, o)) && l in st[sh.obj] && l != p
    ensures var r := WithObject(sh, p, o); l in st'[sh.obj] && Read(st', r).props[l] == Read(st, sh).props[l]
  {
    hide IsTree, Objects, Fits, Read;
    ReadAt(st, sh, l);
    ReadAt(st', WithObject(sh, p, o), l);
    if l in sh.kids { KidKept(st, st', sh, l); }
  }

  lemma EmptyObject(st: Store, o: JsObject)
    requires o in st && st[o] == map[]
    ensures Fits(st, Shape(o, map[])) && Read(st, Shape(o, map[])) == Obj(map[])
  {
  }

  lemma AddObject(st: Store, st': Store, sh: Shape, p: string, o: JsObject)
    requires ObjectAdded(st, st', sh, p, o)
    ensures Fits(st', WithObject(sh, p, o))
    ensures Read(st', WithObject(sh, p, o)).props == Read(st, sh).props[p := Obj(map[])]
  {
    hide IsTree, Objects, Fits, SameOn, Read;
    AddObjectFits(st, st', sh, p, o);
    EmptyObject(st', o);
    ReadAt(st, sh, p);
    ReadAt(st', WithObject(sh, p, o), p);
    var u, t := Read(st', WithObject(sh, p, o)).props, Read(st, sh).props;
    forall l | l in st[sh.obj] && l != p ensures l in u && u[l] == t[l] {
      AddObjectAt(st, st', sh, p, o, l);
    }
    assert u.Keys == t.Keys + {p};
  }

  function AsJson(v: Value): Json
    requires !v.Ref?
  {
    match v
    case Str(s) => Text(s)
    case Prim(id) => Scalar(id)
  }

  lemma PutLeaf(st: Store, st': Store, sh: Shape, key: string, v: Value)
    requires IsTree(sh) && Fits(st, sh) && key !in sh.kids && !v.Ref?
    requires sh.obj in st' && st'[sh.obj] == st[sh.obj][key := v]
    requires SameOn(st, st', Objects(sh) - {sh.obj})
    ensures Fits(st', sh) && Read(st', sh).props == Read(st, sh).props[key := AsJson(v)]
  {
    hide IsTree, Objects;
    forall l | l in sh.kids
      ensures Fits(st', sh.kids[l]) && Read(st', sh.kids[l]) == Read(st, sh.kids[l])
    {
      KidKept(st, st', sh, l);
    }
  }

  // ----- setDeep in place -----

  /** The objects `objs` hold a tree of the given shape that stands for `t`. */
  ghost predicate Holds(objs: set<JsObject>, sh: Shape, t: Props)
    reads objs
  {
    && IsTree(sh) && Objects(sh) <= objs
    && Fits(Snapshot(objs), sh) && Read(Snapshot(objs), sh).props == t
  }

  /** The cursor of `setDeep` stands at the object at `q`. */
  ghost predicate CursorAt(sh: Shape, q: Path, current: JsObject) {
    Has(sh, q) && Sub(sh, q).obj == current
  }

  /** `current[p] = {}`. */
  method CreateIn(current: JsObject, p: string,
                  ghost objs: set<JsObject>, ghost sh: Shape, ghost t: Props, ghost q: Path)
    returns (ghost objs': set<JsObject>, ghost sh': Shape)
    requires Holds(objs, sh, t) && CursorAt(sh, q, current)
    requires p in current.props ==> current.props[p].Prim?
    modifies current
    ensures ObjectAt(t, q) && Holds(objs', sh', Graft(t, q, PropsAt(t, q)[p := Obj(map[])]))
    ensures p in PropsAt(t, q) ==> PropsAt(t, q)[p].Scalar?
    ensures sh'.obj == sh.obj && CursorAt(sh', q, current)
    ensures p in current.props && current.props[p].Ref? && CursorAt(sh', q + [p], current.props[p].obj)
    ensures current.props[p].obj.props == map[]
    ensures objs <= objs' && fresh(objs' - objs)
  {
    hide IsTree, Fits, Read, Objects;
    ghost var st, cur := Snapshot(objs), Sub(sh, q);
    SubFits(st, sh, q);
    FitsRefs(st, cur);
    CursorIn(sh, q);
    var o := new JsObject();
    current.props := current.props[p := Ref(o)];
    objs' := objs + {o};
    ghost var st', part := Snapshot(objs'), WithObject(cur, p, o);
    WithObjectTree(cur, p, o);
    AddObject(st, st', cur, p, o);
    ReplaceAt(st, st', sh, q, part);
    sh' := Replace(sh, q, part);
    SubNext(sh', q, p);
    ReadScalar(st, cur, p);
  }

  lemma {:induction false} CursorIn(sh: Shape, q: Path)
    requires Has(sh, q)
    ensures Sub(sh, q).obj in Objects(Sub(sh, q)) && Sub(sh, q).obj in Objects(sh)
    decreases |q|
  {
    if q == [] {
    } else {
      CursorIn(sh.kids[q[0]], q[1..]);
    }
  }

  lemma {:induction false} SubNext(sh: Shape, q: Path, p: string)
    requires Has(sh, q) && p in Sub(sh, q).kids
    ensures Has(sh, q + [p]) && Sub(sh, q + [p]) == Sub(sh, q).kids[p]
    decreases |q|
  {
    if q == [] {
      assert q + [p] == [p] && [p][1..] == [];
    } else {
      assert (q + [p])[1..] == q[1..] + [p];
      SubNext(sh.kids[q[0]], q[1..], p);
    }
  }

  lemma ReadScalar(st: Store, sh: Shape, p: string)
    requires Fits(st, sh)
    ensures p in Read(st, sh).props <==> p in st[sh.obj]
    ensures p in st[sh.obj] ==>
              && (Read(st, sh).props[p].Text? <==> st[sh.obj][p].Str?)
              && (st[sh.obj][p].Str? ==> Read(st, sh).props[p] == Text(st[sh.obj][p].s))
              && (Read(st, sh).props[p].Scalar? <==> st[sh.obj][p].Prim?)
              && (Read(st, sh).props[p].Obj? <==> st[sh.obj][p].Ref?)
  {
  }

  /** What the cursor reads of the tree: the object at `q` and what setting the rest of the path would do. */
  lemma CursorReads(objs: set<JsObject>, sh: Shape, t: Props, path: Path, i: nat, v: string, current: JsObject)
    requires Holds(objs, sh, t) && i < |path| && CursorAt(sh, path[..i], current)
    ensures ObjectAt(t, path[..i]) && current in objs
    ensures var c := PropsAt(t, path[..i]);
            && Sets(t, path) == Sets(c, path[i..]) && Set(t, path, v) == Graft(t, path[..i], Set(c, path[i..], v))
            && (path[i] in c <==> path[i] in current.props)
            && (path[i] in c ==>
                  && (c[path[i]].Text? <==> current.props[path[i]].Str?)
                  && (c[path[i]].Text? ==> c[path[i]].s == current.props[path[i]].s)
                  && (c[path[i]].Obj? <==> current.props[path[i]].Ref?)
                  && (current.props[path[i]].Ref? ==> CursorAt(sh, path[..i + 1], current.props[path[i]].obj)))
  {
    hide IsTree, Fits, Objects, Read, Set, Sets;
    var st, q := Snapshot(objs), path[..i];
    SubFits(st, sh, q);
    CursorIn(sh, q);
    ReadScalar(st, Sub(sh, q), path[i]);
    assert path[..i] + path[i..] == path;
    WalkSet(t, q, path[i..], v);
    if path[i] in current.props && current.props[path[i]].Ref? {
      FitsRefs(st, Sub(sh, q));
      SubNext(sh, q, path[i]);
      assert path[..i] + [path[i]] == path[..i + 1];
    }
  }

  /** `current[last] = v`. */
  method WriteText(current: JsObject, last: string, v: string,
                   ghost objs: set<JsObject>, ghost sh: Shape, ghost t: Props, ghost q: Path)
    returns (ghost sh': Shape)
    requires Holds(objs, sh, t) && CursorAt(sh, q, current)
    requires last in current.props ==> !current.props[last].Ref?
    modifies current
    ensures ObjectAt(t, q) && Holds(objs, sh', Graft(t, q, PropsAt(t, q)[last := Text(v)]))
    ensures sh'.obj == sh.obj
  {
    hide IsTree, Fits, Read, Objects;
    ghost var st, cur := Snapshot(objs), Sub(sh, q);
    SubFits(st, sh, q);
    FitsRefs(st, cur);
    CursorIn(sh, q);
    current.props := current.props[last := Str(v)];
    ghost var st' := Snapshot(objs);
    PutLeaf(st, st', cur, last, Str(v));
    ReplaceAt(st, st', sh, q, cur);
    sh' := Replace(sh, q, cur);
  }

  /** One level down: `current = current[p]`, through a new object when there is none. */
  method Enter(current: JsObject, ghost objs0: set<JsObject>, ghost sh0: Shape, ghost t0: Props,
               path: Path, i: nat, ghost v: string)
    returns (next: JsObject, ghost objs: set<JsObject>, ghost sh: Shape, ghost t: Props)
    requires Holds(objs0, sh0, t0) && i < |path| - 1 && CursorAt(sh0, path[..i], current)
    requires path[i] in current.props ==> !current.props[path[i]].Str?
    modifies current
    ensures sh.obj == sh0.obj && Holds(objs, sh, t) && CursorAt(sh, path[..i + 1], next)
    ensures objs0 <= objs && fresh(objs - objs0)
    ensures Sets(t, path) == Sets(t0, path) && Set(t, path, v) == Set(t0, path, v)
    ensures if path[i] in old(current.props) && old(current.props)[path[i]].Ref?
            then objs == objs0 && unchanged(current) else next.props == map[]
  {
    hide IsTree, Fits, Read, Objects, Holds, CursorAt, Graft, PropsAt, ObjectAt;
    objs, sh, t := objs0, sh0, t0;
    var p := path[i];
    CursorReads(objs, sh, t, path, i, v, current);
    if !(p in current.props && current.props[p].Ref?) {
      ghost var q := path[..i];
      assert path[i..] == [p] + path[i + 1..];
      assert q + ([p] + path[i + 1..]) == path && q + [p] == path[..i + 1];
      objs, sh := CreateIn(current, p, objs, sh, t, q);
      CreateOnTheWay(t, q, p, path[i + 1..], v);
      t := Graft(t, q, PropsAt(t, q)[p := Obj(map[])]);
    }
    next := current.props[p].obj;
  }

  /**
    `setDeep` with its cursor.  The objects end up holding the tree `Set` describes;
    when it returns false no object was created and none was changed.
   */
  method SetDeep(root: JsObject, key: string, v: string, ghost objs0: set<JsObject>, ghost sh0: Shape, ghost t0: Props)
    returns (done: bool, ghost objs: set<JsObject>, ghost sh: Shape)
    requires sh0.obj == root && Holds(objs0, sh0, t0)
    modifies objs0
    ensures sh.obj == root && Holds(objs, sh, Set(t0, Split(key), v))
    ensures done == Sets(t0, Split(key))
    ensures objs0 <= objs && fresh(objs - objs0)
    ensures !done ==> objs == objs0 && unchanged(objs0)
  {
    hide IsTree, Fits, Read, Objects, Holds, CursorAt, Graft, PropsAt, ObjectAt;
    var path := Split(key);
    objs, sh := objs0, sh0;
    ghost var t := t0;
    var current := root;
    var i := 0;
    AtRoot(sh0);
    assert path[..0] == [];
    while i < |path| - 1
      invariant 0 <= i <= |path| - 1
      invariant sh.obj == root && Holds(objs, sh, t) && CursorAt(sh, path[..i], current)
      invariant objs0 <= objs && fresh(objs - objs0)
      invariant Sets(t, path) == Sets(t0, path) && Set(t, path, v) == Set(t0, path, v)
      invariant (objs == objs0 && unchanged(objs0)) || current.props == map[]
    {
      var p := path[i];
      CursorReads(objs, sh, t, path, i, v, current);
      if p in current.props && current.props[p].Str? {
        assert path[i..] == [p] + path[i + 1..];
        SetAllOrNothing(t0, path, v);
        SetAllOrNothing(t, path, v);
        return false, objs, sh;
      }
      current, objs, sh, t := Enter(current, objs, sh, t, path, i, v);
      i := i + 1;
    }
    var last := path[|path| - 1];
    CursorReads(objs, sh, t, path, i, v, current);
    assert path[i..] == [last];
    if last !in current.props || current.props[last] == Str(last) || current.props[last] == Str("") {
      sh := WriteText(current, last, v, objs, sh, t, path[..i]);
      return true, objs, sh;
    }
    SetAllOrNothing(t0, path, v);
    SetAllOrNothing(t, path, v);
    return false, objs, sh;
  }

  lemma AtRoot(sh: Shape)
    ensures CursorAt(sh, [], sh.obj)
  {
  }

  // ----- a sync pass in place -----

  /** The extracted keys with the values a language file gets. */
  function Entries(lang: string, extracted: seq<(string, string)>): seq<Entry> {
    seq(|extracted|, i requires 0 <= i < |extracted| => Entry(extracted[i].0, ValueFor(lang, extracted[i].1)))
  }

  /**
    A first sync of keys without dotted prefixes: every key holds its default text,
    marked as a thing to do in every language but English.
   */
  lemma FirstSync(lang: string, extracted: seq<(string, string)>, i: nat)
    requires PrefixFree(Entries(lang, extracted)) && i < |extracted|
    ensures Get(Pass(map[], Entries(lang, extracted)), Split(extracted[i].0))
         == Some(Text(if lang == "en" then extracted[i].1 else "[TODO] " + extracted[i].1))
  {
    hide Split, Get, Pass;
    var entries := Entries(lang, extracted);
    forall j, k | 0 <= j < k < |entries| ensures entries[j].key != entries[k].key {
      assert Apart(Split(entries[j].key), Split(entries[k].key));
    }
    MovedFirstStays(entries, i);
    PassOrderIrrelevant(map[], entries, MoveFirst(entries, i));
  }

  /** The loop over the extracted keys for one language; `added` is the reported count. */
  method SyncLanguage(root: JsObject, lang: string, extracted: seq<(string, string)>,
                      ghost objs0: set<JsObject>, ghost sh0: Shape, ghost t0: Props)
    returns (added: nat, ghost objs: set<JsObject>, ghost sh: Shape)
    requires sh0.obj == root && Holds(objs0, sh0, t0)
    modifies objs0
    ensures sh.obj == root && Holds(objs, sh, Pass(t0, Entries(lang, extracted)))
    ensures added == Added(t0, Entries(lang, extracted))
    ensures objs0 <= objs && fresh(objs - objs0)
  {
    hide IsTree, Fits, Read, Objects, Holds, Set, Sets, Split;
    added, objs, sh := 0, objs0, sh0;
    ghost var entries := Entries(lang, extracted);
    for i := 0 to |extracted|
      invariant sh.obj == root && Holds(objs, sh, Pass(t0, entries[..i]))
      invariant added == Added(t0, entries[..i])
      invariant objs0 <= objs && fresh(objs - objs0)
    {
      assert entries[..i + 1][..i] == entries[..i];
      var valToSet := if lang == "en" then extracted[i].1 else "[TODO] " + extracted[i].1;
      var done;
      done, objs, sh := SetDeep(root, extracted[i].0, valToSet, objs, sh, Pass(t0, entries[..i]));
      if done {
        added := added + 1;
      }
    }
    assert entries[..|extracted|] == entries;
  }

  // ----- cleanObject in place -----

  function Without(sh: Shape, key: string): Shape { Shape(sh.obj, sh.kids - {key}) }

  /** The store after `delete obj[key]`. */
  ghost predicate Deleted(st: Store, st': Store, sh: Shape, key: string) {
    && IsTree(sh) && Fits(st, sh) && key in st[sh.obj]
    && sh.obj in st' && st'[sh.obj] == st[sh.obj] - {key}
    && SameOn(st, st', Objects(sh) - {sh.obj})
  }

  lemma WithoutTree(sh: Shape, key: string)
    requires IsTree(sh)
    ensures IsTree(Without(sh, key)) && Objects(Without(sh, key)) <= Objects(sh)
  {
    forall l | l in sh.kids && l != key ensures Without(sh, key).kids[l] == sh.kids[l] {
    }
  }

  lemma DeleteFits(st: Store, st': Store, sh: Shape, key: string)
    requires Deleted(st, st', sh, key)
    ensures Fits(st', Without(sh, key))
  {
    hide IsTree, Objects, Read;
    FitsRefs(st, sh);
    forall l | l in sh.kids && l != key ensures Fits(st', sh.kids[l]) {
      KidKept(st, st', sh, l);
    }
  }

  lemma DeleteKey(st: Store, st': Store, sh: Shape, key: string)
    requires Deleted(st, st', sh, key)
    ensures Fits(st', Without(sh, key))
    ensures Read(st', Without(sh, key)).props == Read(st, sh).props - {key}
  {
    hide IsTree, Objects, Fits, SameOn, Read;
    DeleteFits(st, st', sh, key);
    var u, t := Read(st', Without(sh, key)).props, Read(st, sh).props;
    ReadAt(st, sh, key);
    ReadAt(st', Without(sh, key), key);
    forall l | l in st[sh.obj] && l != key ensures l in u && u[l] == t[l] {
      ReadAt(st, sh, l);
      ReadAt(st', Without(sh, key), l);
      if l in sh.kids { KidKept(st, st', sh, l); }
    }
    assert u.Keys == t.Keys - {key};
  }

  function UsedBy(extracted: set<string>, prefixes: seq<string>): string -> bool {
    name => KeyUsed(extracted, prefixes, name)
  }

  /** The properties while `cleanObject` still has the keys `todo` to look at. */
  function PartlyClean(t: Props, prefix: string, used: string -> bool, todo: set<string>): Props {
    map k | k in t && (k in todo || Cleaned(t[k], FullPath(prefix, k), used).Some?)
          :: if k in todo then t[k] else Cleaned(t[k], FullPath(prefix, k), used).value
  }

  /** The properties of an object after `cleanObject` looked at one key. */
  function AfterKey(t: Props, key: string, name: string, used: string -> bool): Props
    requires key in t
  {
    var c := Cleaned(t[key], name, used);
    if c.Some? then t[key := c.value] else t - {key}
  }

  lemma PartlyCleanStep(t: Props, prefix: string, used: string -> bool, todo: set<string>, key: string)
    requires key in todo && todo <= t.Keys
    ensures key in PartlyClean(t, prefix, used, todo)
    ensures PartlyClean(t, prefix, used, todo - {key})
         == AfterKey(PartlyClean(t, prefix, used, todo), key, FullPath(prefix, key), used)
  {
    hide Cleaned;
  }

  /** `delete obj[key]`. */
  method DeleteIn(obj: JsObject, key: string, ghost objs: set<JsObject>, ghost sh: Shape, ghost t: Props)
    returns (ghost sh': Shape)
    requires sh.obj == obj && Holds(objs, sh, t) && key in t
    modifies obj
    ensures sh' == Without(sh, key) && Objects(sh') <= Objects(sh) && Holds(objs, sh', t - {key})
  {
    hide IsTree, Fits, Read;
    ghost var st := Snapshot(objs);
    FitsRefs(st, sh);
    ReadAt(st, sh, key);
    obj.props := obj.props - {key};
    WithoutTree(sh, key);
    DeleteKey(st, Snapshot(objs), sh, key);
    sh' := Without(sh, key);
  }

  /** A kid on its own objects, and what the object says of it. */
  lemma KidHolds(objs: set<JsObject>, sh: Shape, t: Props, key: string)
    requires Holds(objs, sh, t) && key in t
    ensures sh.obj in objs && key in sh.obj.props && (sh.obj.props[key].Ref? <==> t[key].Obj?)
    ensures t[key].Obj? <==> key in sh.kids
    ensures key in sh.kids ==>
              && sh.obj.props[key] == Ref(sh.kids[key].obj) && Objects(sh.kids[key]) <= Objects(sh)
              && Holds(Objects(sh.kids[key]), sh.kids[key], t[key].props)
  {
    hide IsTree, Fits, Read, Objects;
    var st := Snapshot(objs);
    FitsRefs(st, sh);
    ReadAt(st, sh, key);
    ReadScalar(st, sh, key);
    RootIn(sh);
    if key in sh.kids {
      KidFacts(st, sh, key);
      ReadFrame(st, Snapshot(Objects(sh.kids[key])), sh.kids[key]);
    }
  }

  lemma RootIn(sh: Shape)
    ensures sh.obj in Objects(sh)
  {
  }

  /** What `Holds` says, of a snapshot. */
  ghost predicate Held(st: Store, objs: set<JsObject>, sh: Shape, t: Props) {
    IsTree(sh) && Objects(sh) <= objs && Fits(st, sh) && Read(st, sh).props == t
  }

  /** A kid changed on its own objects only since the snapshot `st`: the tree with the kid's new contents. */
  lemma KidChanged(st: Store, objs: set<JsObject>, sh: Shape, t: Props, key: string, kid: Shape, c: Props)
    requires Held(st, objs, sh, t) && key in t && key in sh.kids
    requires kid.obj == sh.kids[key].obj && Objects(kid) <= Objects(sh.kids[key])
    requires Holds(Objects(sh.kids[key]), kid, c)
    requires SameOn(st, Snapshot(objs), objs - Objects(sh.kids[key]))
    ensures Holds(objs, Shape(sh.obj, sh.kids[key := kid]), t[key := Obj(c)])
    ensures Objects(Shape(sh.obj, sh.kids[key := kid])) <= Objects(sh)
  {
    hide IsTree, Fits, Read, Objects;
    var st' := Snapshot(objs);
    KidFacts(st, sh, key);
    ReadFrame(Snapshot(Objects(sh.kids[key])), st', kid);
    ReplaceKid(st, st', sh, key, kid);
  }

  /** The other kids are where they were. */
  ghost predicate SameKids(sh: Shape, sh': Shape, keys: set<string>) {
    forall k :: k in keys ==> (k in sh'.kids <==> k in sh.kids) && (k in sh.kids ==> sh'.kids[k] == sh.kids[k])
  }

  ghost predicate SameKidsBut(sh: Shape, sh': Shape, key: string) {
    forall k :: k != key ==> (k in sh'.kids <==> k in sh.kids) && (k in sh.kids ==> sh'.kids[k] == sh.kids[k])
  }

  lemma OthersKept(sh: Shape, key: string, kid: Shape)
    ensures SameKidsBut(sh, sh, key) && SameKidsBut(sh, Without(sh, key), key)
    ensures SameKidsBut(sh, Shape(sh.obj, sh.kids[key := kid]), key)
    ensures SameKidsBut(sh, Without(Shape(sh.obj, sh.kids[key := kid]), key), key)
  {
  }

  lemma SetThenDelete(t: Props, key: string, j: Json)
    ensures t[key := j] - {key} == t - {key}
    ensures key in t && t[key] == j ==> t[key := j] == t
  {
  }

  /** One turn of the loop of `cleanObject`. */
  method CleanKey(obj: JsObject, key: string, fullPath: string, extracted: set<string>, prefixes: seq<string>,
                  ghost objs: set<JsObject>, ghost sh0: Shape, ghost sh: Shape, ghost t: Props)
    returns (deleted: nat, ghost sh': Shape)
    requires sh.obj == obj && Holds(objs, sh, t) && key in t && SameKids(sh0, sh, {key})
    modifies objs
    ensures sh'.obj == obj && Objects(sh') <= Objects(sh) && SameKidsBut(sh, sh', key)
    ensures Holds(objs, sh', AfterKey(t, key, fullPath, UsedBy(extracted, prefixes)))
    ensures deleted + |Leaves(Obj(AfterKey(t, key, fullPath, UsedBy(extracted, prefixes))))| == |Leaves(Obj(t))|
    decreases sh0, 0
  {
    hide IsTree, Fits, Read, Objects, Clean, Cleaned, Leaves, KeyUsed, SameKidsBut;
    ghost var used, st := UsedBy(extracted, prefixes), Snapshot(objs);
    assert Held(st, objs, sh, t);
    KidHolds(objs, sh, t, key);
    if obj.props[key].Ref? {
      ghost var kid, c := sh.kids[key], Clean(t[key], fullPath, used);
      deleted, sh' := CleanObject(obj.props[key].obj, fullPath, extracted, prefixes, kid, t[key].props);
      KidEmpty(sh'.obj, Objects(kid), sh', c.props);
      KidChanged(st, objs, sh, t, key, sh', c.props);
      OthersKept(sh, key, sh');
      sh' := Shape(obj, sh.kids[key := sh']);
      LeavesReplaced(t, key, c);
      CleanedObject(t[key], fullPath, used);
      KidHolds(objs, sh', t[key := c], key);
      if obj.props[key].obj.props == map[] {
        sh' := DeleteIn(obj, key, objs, sh', t[key := c]);
        LeavesWithout(t[key := c], key);
        NoLeaves();
        SetThenDelete(t, key, c);
      }
    } else {
      CleanedLeaf(t[key], fullPath, used);
      var isUsed := IsKeyUsed(extracted, prefixes, fullPath);
      assert Snapshot(objs) == st;
      deleted, sh' := 0, sh;
      OthersKept(sh, key, sh);
      if !isUsed {
        sh' := DeleteIn(obj, key, objs, sh, t);
        deleted := 1;
        LeavesWithout(t, key);
      } else {
        SetThenDelete(t, key, t[key]);
      }
    }
  }

  /**
    `cleanObject` on the object at the root of `sh`: the objects end up holding what
    `Clean` describes, and the count returned is how many leaves are gone.
   */
  method CleanObject(obj: JsObject, prefix: string, extracted: set<string>, prefixes: seq<string>,
                     ghost sh: Shape, ghost t: Props)
    returns (deleted: nat, ghost sh': Shape)
    requires sh.obj == obj && Holds(Objects(sh), sh, t)
    modifies Objects(sh)
    ensures sh'.obj == obj && Objects(sh') <= Objects(sh)
    ensures Holds(Objects(sh), sh', Clean(Obj(t), prefix, UsedBy(extracted, prefixes)).props)
    ensures deleted + |Leaves(Clean(Obj(t), prefix, UsedBy(extracted, prefixes)))| == |Leaves(Obj(t))|
    decreases sh, 1
  {
    hide IsTree, Fits, Read, Objects, Holds, Clean, Cleaned, Leaves, PartlyClean, KeyUsed;
    ghost var used, objs := UsedBy(extracted, prefixes), Objects(sh);
    deleted, sh' := 0, sh;
    CleanStarts(t, prefix, used, objs, sh);
    var todo := obj.props.Keys;
    while todo != {}
      invariant todo <= t.Keys && sh'.obj == obj && Objects(sh') <= objs && SameKids(sh, sh', todo)
      invariant Holds(objs, sh', PartlyClean(t, prefix, used, todo))
      invariant deleted + |Leaves(Obj(PartlyClean(t, prefix, used, todo)))| == |Leaves(Obj(t))|
      decreases todo
    {
      var key :| key in todo;
      PartlyCleanStep(t, prefix, used, todo, key);
      var fullPath := if prefix != "" then prefix + "." + key else key;
      var n;
      n, sh' := CleanKey(obj, key, fullPath, extracted, prefixes, objs, sh, sh', PartlyClean(t, prefix, used, todo));
      deleted := deleted + n;
      todo := todo - {key};
    }
    CleanEnds(t, prefix, used);
  }

  lemma CleanStarts(t: Props, prefix: string, used: string -> bool, objs: set<JsObject>, sh: Shape)
    requires Holds(objs, sh, t)
    ensures sh.obj in objs && sh.obj.props.Keys == t.Keys && PartlyClean(t, prefix, used, t.Keys) == t
  {
    hide IsTree, Fits, Read;
    FitsRefs(Snapshot(objs), sh);
    ReadAt(Snapshot(objs), sh, "");
  }

  lemma CleanEnds(t: Props, prefix: string, used: string -> bool)
    ensures Obj(PartlyClean(t, prefix, used, {})) == Clean(Obj(t), prefix, used)
  {
    hide Cleaned;
  }

  lemma CleanedObject(j: Json, name: string, used: string -> bool)
    requires j.Obj?
    ensures Cleaned(j, name, used) == var c := Clean(j, name, used); if c.props == map[] then None else Some(c)
  {
  }

  lemma CleanedLeaf(j: Json, name: string, used: string -> bool)
    requires !j.Obj?
    ensures Cleaned(j, name, used) == if used(name) then Some(j) else None
    ensures |Leaves(j)| == 1
  {
  }

  lemma NoLeaves()
    ensures |Leaves(Obj(map[]))| == 0
  {
    assert Leaves(Obj(map[])) == {};
  }

  lemma KidEmpty(o: JsObject, objs: set<JsObject>, sh: Shape, t: Props)
    requires sh.obj == o && Holds(objs, sh, t)
    ensures o in objs && (o.props == map[] <==> t == map[])
  {
    hide IsTree, Fits, Read;
    FitsRefs(Snapshot(objs), sh);
    ReadAt(Snapshot(objs), sh, "");
    assert o.props == map[] <==> o.props.Keys == {};
    assert t == map[] <==> t.Keys == {};
  }
}

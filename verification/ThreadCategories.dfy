/**
  `thread_categories`: automatic categorisation against the user's own choice, over
  any history of writes.
 */
module ThreadCategories {
  import opened Prelude

  /** Account and thread: the primary key. */
  type Key = (string, string)

  datatype Cell = Cell(category: string, isManual: bool, isUserOverride: bool)

  type Table = map<Key, Cell>

  predicate Protected(cell: Cell) { cell.isManual || cell.isUserOverride }

  /** An entry of an automatic batch. */
  datatype Entry = Entry(key: Key, category: string)

  /** An explicit upsert; a flag left out counts as not set. */
  datatype Request = Request(key: Key, category: string, isManual: Option<bool>, isUserOverride: Option<bool>)

  function OrFalse(b: Option<bool>): bool { b.Some? && b.value }

  /** What is written to the table. */
  datatype Write =
    | Auto(entry: Entry)
    | Explicit(req: Request)
    | Derived(entry: Entry)   // INSERT OR IGNORE of a category derived from the sender

  function KeyOf(w: Write): Key {
    match w
    case Auto(e) => e.key
    case Explicit(r) => r.key
    case Derived(e) => e.key
  }

  function CategoryOf(w: Write): string {
    match w
    case Auto(e) => e.category
    case Explicit(r) => r.category
    case Derived(e) => e.category
  }

  function After(t: Table, w: Write): Table {
    match w
    case Auto(e) =>
      if e.key !in t then t[e.key := Cell(e.category, false, false)]
      else if !t[e.key].isManual && !t[e.key].isUserOverride then t[e.key := t[e.key].(category := e.category)]
      else t
    case Explicit(r) => t[r.key := Cell(r.category, OrFalse(r.isManual), OrFalse(r.isUserOverride))]
    case Derived(e) => if e.key in t then t else t[e.key := Cell(e.category, false, false)]
  }

  function AfterAll(t: Table, ws: seq<Write>): Table {
    if ws == [] then t else After(AfterAll(t, ws[..|ws| - 1]), ws[|ws| - 1])
  }

  function Autos(entries: seq<Entry>): seq<Write> {
    seq(|entries|, i requires 0 <= i < |entries| => Auto(entries[i]))
  }

  class ThreadCategoryTable {
    var rows: Table

    constructor ()
      ensures rows == map[]
    {
      rows := map[];
    }

    /**
      A batch: one statement per entry, each committed on its own.  `working` is how
      many statements the database carries out before one fails; the entries before
      the failure stay written.
     */
    method SetBatch(entries: seq<Entry>, working: nat) returns (ok: bool)
      modifies this
      ensures ok == (working >= |entries|)
      ensures rows == AfterAll(old(rows), Autos(if ok then entries else entries[..working]))
    {
      for i := 0 to |entries|
        invariant i <= working
        invariant rows == AfterAll(old(rows), Autos(entries[..i]))
      {
        if i == working {
          return false;
        }
        var e := entries[i];
        assert Autos(entries[..i + 1])[..i] == Autos(entries[..i]);
        if e.key !in rows {
          rows := rows[e.key := Cell(e.category, false, false)];
        } else if !rows[e.key].isManual && !rows[e.key].isUserOverride {
          rows := rows[e.key := rows[e.key].(category := e.category)];
        }
      }
      assert entries[..|entries|] == entries;
      ok := true;
    }

    /** An explicit upsert in a transaction that may fail. */
    method UpsertCategory(r: Request, commits: bool)
      modifies this
      ensures rows == if commits then After(old(rows), Explicit(r)) else old(rows)
    {
      if commits {
        rows := rows[r.key := Cell(r.category, OrFalse(r.isManual), OrFalse(r.isUserOverride))];
      }
    }
  }

  // ----- what a history means for one thread -----

  predicate Protects(w: Write) { w.Explicit? && (OrFalse(w.req.isManual) || OrFalse(w.req.isUserOverride)) }

  /** The `i`-th write is the last explicit one for the thread. */
  predicate LastExplicit(ws: seq<Write>, key: Key, i: nat) {
    && i < |ws| && ws[i].Explicit? && KeyOf(ws[i]) == key
    && forall j :: i < j < |ws| && KeyOf(ws[j]) == key ==> !ws[j].Explicit?
  }

  /** The `i`-th write is the last one for the thread that is not a derived one. */
  predicate LastAssigned(ws: seq<Write>, key: Key, i: nat) {
    && i < |ws| && !ws[i].Derived? && KeyOf(ws[i]) == key
    && forall j :: i < j < |ws| && KeyOf(ws[j]) == key ==> ws[j].Derived?
  }

  /** No write but derived ones for the thread, of which the `i`-th is the first. */
  predicate FirstDerived(ws: seq<Write>, key: Key, i: nat) {
    && i < |ws| && KeyOf(ws[i]) == key
    && (forall j :: 0 <= j < |ws| && KeyOf(ws[j]) == key ==> ws[j].Derived? && i <= j)
  }

  function Rows(ws: seq<Write>): Table { AfterAll(map[], ws) }

  /** Once the user protects a thread, its category is the user's last choice: no automatic write changes it. */
  lemma {:induction false} UserChoiceWins(ws: seq<Write>, key: Key, i: nat)
    requires LastExplicit(ws, key, i)
    ensures key in Rows(ws) && Protected(Rows(ws)[key]) == Protects(ws[i])
    ensures Rows(ws)[key].isManual == (ws[i].req.isManual == Some(true))
    ensures Rows(ws)[key].isUserOverride == (ws[i].req.isUserOverride == Some(true))
    ensures Protects(ws[i]) ==> Rows(ws)[key].category == ws[i].req.category
  {
    var n := |ws| - 1;
    if i < n {
      assert LastExplicit(ws[..n], key, i);
      UserChoiceWins(ws[..n], key, i);
    }
  }

  /** With no explicit write the thread is not protected. */
  lemma {:induction false} UnprotectedWithoutExplicit(ws: seq<Write>, key: Key)
    requires forall j :: 0 <= j < |ws| && KeyOf(ws[j]) == key ==> !ws[j].Explicit?
    ensures key in Rows(ws) ==> !Rows(ws)[key].isManual && !Rows(ws)[key].isUserOverride
  {
    if ws == [] {
    } else {
      UnprotectedWithoutExplicit(ws[..|ws| - 1], key);
    }
  }

  /** Writes to other threads, and derived ones where there is a category, keep a category. */
  lemma StepKeeps(t: Table, w: Write, key: Key)
    requires key in t && (KeyOf(w) == key ==> w.Derived?)
    ensures key in After(t, w) && After(t, w)[key] == t[key]
  {
  }

  /** Otherwise the last batch entry or upsert decides. */
  lemma {:induction false} LastWriteWins(ws: seq<Write>, key: Key, i: nat)
    requires LastAssigned(ws, key, i)
    requires forall k: nat :: LastExplicit(ws, key, k) ==> !Protects(ws[k])
    ensures key in Rows(ws) && Rows(ws)[key].category == CategoryOf(ws[i])
  {
    var n := |ws| - 1;
    if i < n {
      assert LastAssigned(ws[..n], key, i);
      forall k: nat | LastExplicit(ws[..n], key, k) ensures !Protects(ws[..n][k]) {
        assert LastExplicit(ws, key, k);
      }
      LastWriteWins(ws[..n], key, i);
      StepKeeps(Rows(ws[..n]), ws[n], key);
    } else {
      UnprotectedBefore(ws, key);
      hide LastExplicit, Protects;
      assert Rows(ws) == After(Rows(ws[..n]), ws[n]);
    }
  }

  /** The thread is open to automatic writes just before the last write. */
  lemma UnprotectedBefore(ws: seq<Write>, key: Key)
    requires ws != [] && KeyOf(ws[|ws| - 1]) == key
    requires ws[|ws| - 1].Auto? ==> forall k: nat :: LastExplicit(ws, key, k) ==> !Protects(ws[k])
    ensures var before := Rows(ws[..|ws| - 1]);
            ws[|ws| - 1].Auto? && key in before ==> !Protected(before[key])
  {
    hide Rows, Protects;
    var n := |ws| - 1;
    if ws[n].Auto? {
      if k: nat :| LastExplicit(ws[..n], key, k) {
        assert LastExplicit(ws, key, k);
        UserChoiceWins(ws[..n], key, k);
      } else {
        NoLastExplicit(ws[..n], key);
        UnprotectedWithoutExplicit(ws[..n], key);
      }
    }
  }

  lemma {:induction false} NoLastExplicit(ws: seq<Write>, key: Key)
    requires forall k: nat :: !LastExplicit(ws, key, k)
    ensures forall j :: 0 <= j < |ws| && KeyOf(ws[j]) == key ==> !ws[j].Explicit?
  {
    if ws == [] {
    } else {
      var n := |ws| - 1;
      assert !LastExplicit(ws, key, n);
      forall k: nat ensures !LastExplicit(ws[..n], key, k) {
        assert !LastExplicit(ws, key, k);
        assert k < n ==> ws[..n][k] == ws[k];
      }
      NoLastExplicit(ws[..n], key);
    }
  }

  /** A category derived from the sender only ever fills a gap. */
  lemma {:induction false} DerivedFillsGap(ws: seq<Write>, key: Key, i: nat)
    requires FirstDerived(ws, key, i)
    ensures key in Rows(ws) && Rows(ws)[key].category == CategoryOf(ws[i])
  {
    var n := |ws| - 1;
    if i < n {
      assert FirstDerived(ws[..n], key, i);
      DerivedFillsGap(ws[..n], key, i);
    } else {
      NeverWritten(ws[..n], key);
    }
  }

  lemma {:induction false} NeverWritten(ws: seq<Write>, key: Key)
    requires forall j :: 0 <= j < |ws| ==> KeyOf(ws[j]) != key
    ensures key !in Rows(ws)
  {
    if ws == [] {
    } else {
      NeverWritten(ws[..|ws| - 1], key);
    }
  }

  /** The category a history gives a thread, without running it. */
  ghost function Choice(ws: seq<Write>, key: Key): Option<string> {
    if i: nat :| LastExplicit(ws, key, i) && Protects(ws[i]) then Some(CategoryOf(ws[i]))
    else if i: nat :| LastAssigned(ws, key, i) then Some(CategoryOf(ws[i]))
    else if i: nat :| FirstDerived(ws, key, i) then Some(CategoryOf(ws[i]))
    else None
  }

  /** The last explicit write for the thread, if there is one, says it is manual. */
  ghost predicate SaysManual(ws: seq<Write>, key: Key) {
    exists i: nat :: LastExplicit(ws, key, i) && ws[i].req.isManual == Some(true)
  }

  /** The last explicit write for the thread, if there is one, says it overrides. */
  ghost predicate SaysOverride(ws: seq<Write>, key: Key) {
    exists i: nat :: LastExplicit(ws, key, i) && ws[i].req.isUserOverride == Some(true)
  }

  function Stored(ws: seq<Write>, key: Key): Option<Cell> {
    if key in Rows(ws) then Some(Rows(ws)[key]) else None
  }

  lemma {:induction false} NoLastAssigned(ws: seq<Write>, key: Key)
    requires forall k: nat :: !LastAssigned(ws, key, k)
    ensures forall j :: 0 <= j < |ws| && KeyOf(ws[j]) == key ==> ws[j].Derived?
  {
    if ws == [] {
    } else {
      var n := |ws| - 1;
      assert !LastAssigned(ws, key, n);
      forall k: nat ensures !LastAssigned(ws[..n], key, k) {
        assert !LastAssigned(ws, key, k);
        assert k < n ==> ws[..n][k] == ws[k];
      }
      NoLastAssigned(ws[..n], key);
    }
  }

  lemma {:induction false} SomeFirst(ws: seq<Write>, key: Key, j: nat)
    requires j < |ws| && KeyOf(ws[j]) == key
    requires forall j :: 0 <= j < |ws| && KeyOf(ws[j]) == key ==> ws[j].Derived?
    ensures exists i: nat :: FirstDerived(ws, key, i)
    decreases j
  {
    if i :| 0 <= i < j && KeyOf(ws[i]) == key {
      SomeFirst(ws, key, i);
    } else {
      assert FirstDerived(ws, key, j);
    }
  }

  lemma CategoryDecided(ws: seq<Write>, key: Key)
    ensures Choice(ws, key) == if key in Rows(ws) then Some(Rows(ws)[key].category) else None
  {
    hide Rows;
    if i: nat :| LastExplicit(ws, key, i) && Protects(ws[i]) {
      forall k: nat | LastExplicit(ws, key, k) && Protects(ws[k])
        ensures key in Rows(ws) && Rows(ws)[key].category == CategoryOf(ws[k])
      {
        UserChoiceWins(ws, key, k);
      }
    } else if i: nat :| LastAssigned(ws, key, i) {
      forall k: nat | LastAssigned(ws, key, k)
        ensures key in Rows(ws) && Rows(ws)[key].category == CategoryOf(ws[k])
      {
        LastWriteWins(ws, key, k);
      }
    } else if i: nat :| FirstDerived(ws, key, i) {
      forall k: nat | FirstDerived(ws, key, k)
        ensures key in Rows(ws) && Rows(ws)[key].category == CategoryOf(ws[k])
      {
        DerivedFillsGap(ws, key, k);
      }
    } else {
      NoLastAssigned(ws, key);
      forall j | 0 <= j < |ws| ensures KeyOf(ws[j]) != key {
        if KeyOf(ws[j]) == key { SomeFirst(ws, key, j); }
      }
      NeverWritten(ws, key);
    }
  }

  lemma FlagsDecided(ws: seq<Write>, key: Key)
    requires key in Rows(ws)
    ensures Rows(ws)[key].isManual == SaysManual(ws, key)
    ensures Rows(ws)[key].isUserOverride == SaysOverride(ws, key)
  {
    hide Rows;
    forall i: nat | LastExplicit(ws, key, i)
      ensures Rows(ws)[key].isManual == (ws[i].req.isManual == Some(true))
      ensures Rows(ws)[key].isUserOverride == (ws[i].req.isUserOverride == Some(true))
    {
      UserChoiceWins(ws, key, i);
    }
    if forall i: nat :: !LastExplicit(ws, key, i) {
      NoLastExplicit(ws, key);
      UnprotectedWithoutExplicit(ws, key);
    }
  }

  /**
    What is stored for a thread after any history: the category is the user's last
    choice if that protects the thread, otherwise that of the last batch entry or
    upsert, otherwise the first derived one; each flag is what the last upsert said.
   */
  lemma HistoryDecides(ws: seq<Write>, key: Key)
    ensures Stored(ws, key)
         == match Choice(ws, key)
            case None => None
            case Some(category) => Some(Cell(category, SaysManual(ws, key), SaysOverride(ws, key)))
  {
    hide Rows, Choice, SaysManual, SaysOverride;
    CategoryDecided(ws, key);
    if key in Rows(ws) { FlagsDecided(ws, key); }
  }
}

/** The table arrays of `[selection]`: routes added and removed by folded name,
    priorities set and cleared, and the edit pipeline around them. */
module Routes {
  import opened Wrappers
  import opened Edit

  const SELECTION := "selection"

  // ---------------------------------------------------------------- the array a key names

  /** The entries of `selection.<key>` in either spelling; none when it is absent. */
  function EntriesOf(root: seq<Entry>, key: string): Result<Option<seq<Item>>, Failure> {
    match Get(root, SELECTION)
    case None => Ok(None)
    case Some(Table(_, _, entries)) => (
      match Get(entries, key)
      case None => Ok(None)
      case Some(Array(items)) => Ok(Some(items))
      case Some(Tables(items)) => Ok(Some(items))
      case _ => Err(NotAnArray))
    case _ => Err(NotATable)
  }

  function SelectionOf(root: seq<Entry>): Item {
    match Get(root, SELECTION)
    case None => Fresh(false)
    case Some(item) => item
  }

  /** An array created inside an inline table is spelled inline. */
  function ArrayOf(selection: Item, key: string, asTables: bool): Item
    requires selection.Table?
  {
    match Get(selection.entries, key)
    case None => if asTables && !selection.inline_ then Tables([]) else Array([])
    case Some(item) => item
  }

  function WithEntries(list: Item, items: seq<Item>): Item {
    if list.Tables? then Tables(items) else Array(items)
  }

  /** The document with `selection.<key>` holding these entries, created when absent. */
  function PutEntries(root: seq<Entry>, key: string, asTables: bool, items: seq<Item>): seq<Entry> {
    var selection := SelectionOf(root);
    if !selection.Table? then root
    else
      var list := WithEntries(ArrayOf(selection, key, asTables), items);
      Put(root, SELECTION, selection.(entries := Put(selection.entries, key, list)))
  }

  /** The document after entries were taken out: an empty array goes, and an
      empty `selection` with it. */
  function TakeEntries(root: seq<Entry>, key: string, items: seq<Item>): seq<Entry> {
    var selection := SelectionOf(root);
    if !selection.Table? || items != [] then PutEntries(root, key, false, items)
    else
      var left := Drop(selection.entries, key);
      if left == [] then Drop(root, SELECTION) else Put(root, SELECTION, selection.(entries := left))
  }

  predicate Spelled(root: seq<Entry>, key: string, asTables: bool) {
    SelectionOf(root).Table? && ArrayOf(SelectionOf(root), key, asTables).Tables?
  }

  /** The text a member of an entry holds; missing reads as empty. */
  function Literal(entry: Item, key: string): Option<string> {
    match entry
    case Table(_, _, entries) => (
      match Get(entries, key)
      case Some(Text(s)) => Some(s)
      case _ => None)
    case _ => None
  }

  function Strings(items: seq<Item>, key: string): seq<string> {
    seq(|items|, i requires 0 <= i < |items| => if Literal(items[i], key).Some? then Literal(items[i], key).value else "")
  }

  // ---------------------------------------------------------------- routes

  type Fold = string -> string

  datatype RouteArgs = RouteArgs(
    name: string,
    patterns: seq<string>,
    accounts: seq<string>,
    bucket: Option<string>,
    before: Option<string>,
    after: Option<string>)

  function Named(names: seq<string>, name: string, fold: Fold): (i: Option<nat>)
    ensures i.Some? ==> i.value < |names| && fold(names[i.value]) == fold(name)
    ensures i.Some? ==> forall j :: 0 <= j < i.value ==> fold(names[j]) != fold(name)
    ensures i.None? ==> forall j :: 0 <= j < |names| ==> fold(names[j]) != fold(name)
  {
    if names == [] then None
    else if fold(names[0]) == fold(name) then Some(0)
    else
      assert forall j :: 0 < j < |names| ==> names[j] == names[1..][j - 1];
      match Named(names[1..], name, fold)
      case None => None
      case Some(i) => Some(i + 1)
  }

  function Texts(items: seq<string>): Item {
    Array(seq(|items|, i requires 0 <= i < |items| => Text(items[i])))
  }

  function RouteEntry(args: RouteArgs, inline_: bool): Item {
    Table(inline_, false,
          [Entry("name", Text(args.name)), Entry("patterns", Texts(args.patterns))]
          + (if args.accounts == [] then [] else [Entry("accounts", Texts(args.accounts))])
          + (if args.bucket.None? then [] else [Entry("bucket", Text(args.bucket.value))]))
  }

  /** Before or after its anchor, the last place without one. */
  function Place(names: seq<string>, args: RouteArgs, fold: Fold): (r: Result<nat, Failure>)
    ensures r.Ok? ==> r.value <= |names|
  {
    var anchor := if args.before.Some? then args.before else args.after;
    if anchor.None? then Ok(|names|) else
    match Named(names, anchor.value, fold)
    case None => Err(NotFound)
    case Some(i) => Ok(if args.before.Some? then i else i + 1)
  }

  function AfterAddRoute(root: seq<Entry>, args: RouteArgs, fold: Fold): Result<seq<Entry>, Failure> {
    match EntriesOf(root, "routes")
    case Err(why) => Err(why)
    case Ok(found) =>
      var items := if found.None? then [] else found.value;
      var names := Strings(items, "name");
      if Named(names, args.name, fold).Some? then Err(Conflict) else
      match Place(names, args, fold)
      case Err(why) => Err(why)
      case Ok(i) =>
        var route := RouteEntry(args, !Spelled(root, "routes", true));
        Ok(PutEntries(root, "routes", true, items[..i] + [route] + items[i..]))
  }

  function AfterRemoveRoute(root: seq<Entry>, name: string, fold: Fold): Result<seq<Entry>, Failure> {
    match EntriesOf(root, "routes")
    case Err(why) => Err(why)
    case Ok(None) => Err(NotFound)
    case Ok(Some(items)) =>
      match Named(Strings(items, "name"), name, fold)
      case None => Err(NotFound)
      case Some(i) => Ok(TakeEntries(root, "routes", items[..i] + items[i + 1..]))
  }

  // ---------------------------------------------------------------- priorities

  predicate Targeted(entry: Item, existing: seq<string>) {
    Literal(entry, "account").Some? && Literal(entry, "account").value in existing
  }

  function Valued(entry: Item, value: string): Item {
    if entry.Table? then entry.(entries := Put(entry.entries, "value", Scalar(value))) else entry
  }

  function PriorityEntry(reference: string, value: string, inline_: bool): Item {
    Table(inline_, false, [Entry("account", Text(reference)), Entry("value", Scalar(value))])
  }

  function Prioritised(items: seq<Item>, existing: seq<string>, value: string): seq<Item> {
    seq(|items|, i requires 0 <= i < |items| => if Targeted(items[i], existing) then Valued(items[i], value) else items[i])
  }

  predicate AnyTargeted(items: seq<Item>, existing: seq<string>) {
    exists i :: 0 <= i < |items| && Targeted(items[i], existing)
  }

  /** The entries of the account take the value; one is appended when there is none. */
  function AfterSetPriority(root: seq<Entry>, reference: string, value: string, existing: seq<string>)
    : Result<seq<Entry>, Failure>
  {
    match EntriesOf(root, "priorities")
    case Err(why) => Err(why)
    case Ok(found) =>
      var items := if found.None? then [] else found.value;
      var entry := PriorityEntry(reference, value, !Spelled(root, "priorities", false));
      Ok(PutEntries(root, "priorities", false,
                    if AnyTargeted(items, existing) then Prioritised(items, existing, value) else items + [entry]))
  }

  function Retained(items: seq<Item>, existing: seq<string>): seq<Item> {
    if items == [] then []
    else
      var front := Retained(items[..|items| - 1], existing);
      if Targeted(items[|items| - 1], existing) then front else front + [items[|items| - 1]]
  }

  function AfterClearPriority(root: seq<Entry>, existing: seq<string>): Result<seq<Entry>, Failure> {
    match EntriesOf(root, "priorities")
    case Err(why) => Err(why)
    case Ok(None) => Ok(root)
    case Ok(Some(items)) => Ok(TakeEntries(root, "priorities", Retained(items, existing)))
  }

  // ---------------------------------------------------------------- in place

  /** The item is created on the way, as a walk with `create` does. */
  method SelectionEntry(document: Document, key: string, asTables: bool, create: bool)
    returns (r: Result<Option<seq<Item>>, Failure>)
    requires document.root.Table? && !document.root.inline_
    modifies document
    ensures document.root.Table? && document.root == old(document.root).(entries := document.root.entries)
    ensures r == match EntriesOf(old(document.root).entries, key)
                 case Ok(None) => if create then Ok(Some([])) else Ok(None)
                 case other => other
    ensures !create || r.Err? ==> document.root == old(document.root)
    ensures create && r.Ok? ==>
              document.root.entries == PutEntries(old(document.root).entries, key, asTables, r.value.value)
  {
    var entries := document.root.entries;
    if Get(entries, SELECTION).None? && !create {
      return Ok(None);
    }
    var selection := if Get(entries, SELECTION).None? then Fresh(false) else Get(entries, SELECTION).value;
    if !selection.Table? {
      return Err(NotATable);
    }
    var list := Get(selection.entries, key);
    if list.None? {
      if !create {
        return Ok(None);
      }
      list := Some(if asTables && !selection.inline_ then Tables([]) else Array([]));
    }
    if !list.value.Tables? && !list.value.Array? {
      return Err(NotAnArray);
    }
    if create {
      document.root := document.root.(entries :=
        Put(entries, SELECTION, selection.(entries := Put(selection.entries, key, list.value))));
    }
    return Ok(Some(list.value.items));
  }

  /** The entries of an array that is there are overwritten. */
  method Overwrite(document: Document, key: string, items: seq<Item>)
    requires document.root.Table?
    requires EntriesOf(document.root.entries, key).Ok? && EntriesOf(document.root.entries, key).value.Some?
    modifies document
    ensures document.root == old(document.root).(entries := PutEntries(old(document.root).entries, key, false, items))
  {
    document.root := document.root.(entries := PutEntries(document.root.entries, key, false, items));
  }

  lemma PutEntriesTwice(root: seq<Entry>, key: string, asTables: bool, first: seq<Item>, second: seq<Item>)
    requires EntriesOf(root, key).Ok?
    ensures var once := PutEntries(root, key, asTables, first);
            && EntriesOf(once, key) == Ok(Some(first))
            && Spelled(once, key, false) == Spelled(root, key, asTables)
            && PutEntries(once, key, false, second) == PutEntries(root, key, asTables, second)
  {
    var selection := SelectionOf(root);
    var list := ArrayOf(selection, key, asTables);
    var put := selection.(entries := Put(selection.entries, key, WithEntries(list, first)));
    PutThenGet(root, SELECTION, put);
    PutThenGet(selection.entries, key, WithEntries(list, first));
    PutTwice(selection.entries, key, WithEntries(list, first), WithEntries(list, second));
    PutTwice(root, SELECTION, put, selection.(entries := Put(selection.entries, key, WithEntries(list, second))));
  }

  lemma PathOfTwo(key: string)
    ensures var path := [SELECTION, key];
            path[..|path| - 1] == [SELECTION] && [SELECTION][..|[SELECTION]| - 1] == [] && [SELECTION][1..] == []
  {
  }

  /** One step of pruning at `selection.<key>`, and one at `selection`. */
  lemma WithoutEmptyEntries(root: Item, selection: Item, key: string)
    requires root.Table? && selection.Table?
    ensures var later := root.(entries := Put(root.entries, SELECTION, selection));
            var item := Get(selection.entries, key);
            && WithoutEmpty(later, [SELECTION, key]) ==
               (if item.None? || !Empty(item.value) then None
                else Some(root.(entries := Put(root.entries, SELECTION, selection.(entries := Drop(selection.entries, key))))))
            && WithoutEmpty(later, [SELECTION]) ==
               (if selection.entries != [] then None else Some(root.(entries := Drop(root.entries, SELECTION))))
  {
    var later := root.(entries := Put(root.entries, SELECTION, selection));
    PathOfTwo(key);
    PutThenGet(root.entries, SELECTION, selection);
    PutTwice(root.entries, SELECTION, selection, selection.(entries := Drop(selection.entries, key)));
    assert TableAt(selection, []) == Some(selection) && TableAt(later, []) == Some(later);
    assert TableAt(later, [SELECTION]) == Some(selection);
    var left := Drop(selection.entries, key);
    assert Update(selection, [], left) == selection.(entries := left);
    assert Update(later, [SELECTION], left) == later.(entries := Put(later.entries, SELECTION, selection.(entries := left)));
    assert Update(later, [], Drop(later.entries, SELECTION)) == root.(entries := Drop(root.entries, SELECTION));
  }

  /** An array left empty is pruned, and a selection left empty by that. */
  lemma PruneTakesEntries(root: Item, key: string, items: seq<Item>)
    requires root.Table? && EntriesOf(root.entries, key).Ok? && EntriesOf(root.entries, key).value.Some?
    ensures Prune(root.(entries := PutEntries(root.entries, key, false, items)), [SELECTION, key])
            == root.(entries := TakeEntries(root.entries, key, items))
  {
    var selection := SelectionOf(root.entries);
    var list := WithEntries(ArrayOf(selection, key, false), items);
    var put := selection.(entries := Put(selection.entries, key, list));
    PathOfTwo(key);
    PutThenGet(selection.entries, key, list);
    WithoutEmptyEntries(root, put, key);
    if items == [] {
      PutTwice(selection.entries, key, list, list);
      var left := selection.(entries := Drop(selection.entries, key));
      var dropped := root.(entries := Put(root.entries, SELECTION, left));
      WithoutEmptyEntries(root, left, key);
      assert Prune(root.(entries := PutEntries(root.entries, key, false, items)), [SELECTION, key]) == Prune(dropped, [SELECTION]);
      assert left.entries == [] ==> Prune(root.(entries := Drop(root.entries, SELECTION)), []) == root.(entries := Drop(root.entries, SELECTION));
    }
  }

  lemma NothingToPrune(root: Item, key: string)
    requires root.Table? && EntriesOf(root.entries, key) == Ok(None)
    ensures Prune(root, [SELECTION, key]) == root
  {
    PathOfTwo(key);
    var selection := Get(root.entries, SELECTION);
    if selection.Some? {
      assert TableAt(selection.value, []) == selection;
    }
    assert TableAt(root, [SELECTION]) == selection;
    assert WithoutEmpty(root, [SELECTION, key]).None?;
  }

  /** A failed addition may leave an empty array behind in a document that is
      then thrown away. */
  method AddRoute(document: Document, args: RouteArgs, fold: Fold) returns (r: Result<(), Failure>)
    requires document.root.Table? && !document.root.inline_
    modifies document
    ensures r.Ok? <==> AfterAddRoute(old(document.root).entries, args, fold).Ok?
    ensures r.Ok? ==>
              document.root == old(document.root).(entries := AfterAddRoute(old(document.root).entries, args, fold).value)
    ensures r.Err? ==> AfterAddRoute(old(document.root).entries, args, fold) == Err(r.error)
  {
    hide EntriesOf, PutEntries, Spelled, RouteEntry, Literal, Named;
    var routes := SelectionEntry(document, "routes", true, true);
    if routes.Err? {
      return Err(routes.error);
    }
    var items := routes.value.value;
    PutEntriesTwice(old(document.root).entries, "routes", true, items, items);
    var names := Strings(items, "name");
    if Named(names, args.name, fold).Some? {
      return Err(Conflict);
    }
    var index := |names|;
    if args.before.Some? {
      var anchor := Named(names, args.before.value, fold);
      if anchor.None? {
        return Err(NotFound);
      }
      index := anchor.value;
    } else if args.after.Some? {
      var anchor := Named(names, args.after.value, fold);
      if anchor.None? {
        return Err(NotFound);
      }
      index := anchor.value + 1;
    }
    var route := RouteEntry(args, !Spelled(document.root.entries, "routes", false));
    var later := items[..index] + [route] + items[index..];
    PutEntriesTwice(old(document.root).entries, "routes", true, items, later);
    Overwrite(document, "routes", later);
    return Ok(());
  }

  method RemoveRoute(document: Document, name: string, fold: Fold) returns (r: Result<(), Failure>)
    requires document.root.Table? && !document.root.inline_
    modifies document
    ensures r.Ok? ==>
              && AfterRemoveRoute(old(document.root).entries, name, fold).Ok?
              && document.root == old(document.root).(entries := AfterRemoveRoute(old(document.root).entries, name, fold).value)
    ensures r.Err? ==>
              document.root == old(document.root) && AfterRemoveRoute(old(document.root).entries, name, fold) == Err(r.error)
  {
    var routes := SelectionEntry(document, "routes", true, false);
    if routes.Err? {
      return Err(routes.error);
    }
    if routes.value.None? {
      return Err(NotFound);
    }
    var items := routes.value.value;
    var index := Named(Strings(items, "name"), name, fold);
    if index.None? {
      return Err(NotFound);
    }
    var left := items[..index.value] + items[index.value + 1..];
    PruneTakesEntries(document.root, "routes", left);
    Overwrite(document, "routes", left);
    document.PruneEmpty([SELECTION, "routes"]);
    return Ok(());
  }

  method Prioritise(items: seq<Item>, value: string, existing: seq<string>) returns (later: seq<Item>, updated: bool)
    ensures later == Prioritised(items, existing, value)
    ensures updated <==> AnyTargeted(items, existing)
    ensures !updated ==> later == items
  {
    later, updated := items, false;
    for i := 0 to |items|
      invariant |later| == |items|
      invariant updated <==> exists j :: 0 <= j < i && Targeted(items[j], existing)
      invariant forall j :: 0 <= j < i ==> later[j] == Prioritised(items, existing, value)[j]
      invariant forall j :: i <= j < |items| ==> later[j] == items[j]
    {
      if Targeted(items[i], existing) {
        later := later[i := Valued(items[i], value)];
        updated := true;
      }
    }
  }

  method SetPriority(document: Document, reference: string, value: string, existing: seq<string>)
    returns (r: Result<(), Failure>)
    requires document.root.Table? && !document.root.inline_
    modifies document
    ensures r.Ok? ==>
              && AfterSetPriority(old(document.root).entries, reference, value, existing).Ok?
              && document.root == old(document.root).(entries :=
                   AfterSetPriority(old(document.root).entries, reference, value, existing).value)
    ensures r.Err? ==> AfterSetPriority(old(document.root).entries, reference, value, existing) == Err(r.error)
  {
    var priorities := SelectionEntry(document, "priorities", false, true);
    if priorities.Err? {
      return Err(priorities.error);
    }
    var items := priorities.value.value;
    PutEntriesTwice(old(document.root).entries, "priorities", false, items, items);
    var later, updated := Prioritise(items, value, existing);
    if !updated {
      later := later + [PriorityEntry(reference, value, !Spelled(document.root.entries, "priorities", false))];
    }
    PutEntriesTwice(old(document.root).entries, "priorities", false, items, later);
    Overwrite(document, "priorities", later);
    return Ok(());
  }

  method ClearPriority(document: Document, existing: seq<string>) returns (r: Result<(), Failure>)
    requires document.root.Table? && !document.root.inline_
    modifies document
    ensures r.Ok? ==>
              && AfterClearPriority(old(document.root).entries, existing).Ok?
              && document.root == old(document.root).(entries := AfterClearPriority(old(document.root).entries, existing).value)
    ensures r.Err? ==>
              document.root == old(document.root) && AfterClearPriority(old(document.root).entries, existing) == Err(r.error)
  {
    var priorities := SelectionEntry(document, "priorities", false, false);
    if priorities.Err? {
      return Err(priorities.error);
    }
    if priorities.value.Some? {
      var items, left: seq<Item> := priorities.value.value, [];
      for i := 0 to |items|
        invariant document.root == old(document.root)
        invariant left == Retained(items[..i], existing)
      {
        assert items[..i + 1][..i] == items[..i];
        if !Targeted(items[i], existing) {
          left := left + [items[i]];
        }
      }
      assert items[..|items|] == items;
      PruneTakesEntries(document.root, "priorities", left);
      Overwrite(document, "priorities", left);
    } else {
      NothingToPrune(document.root, "priorities");
    }
    document.PruneEmpty([SELECTION, "priorities"]);
    return Ok(());
  }
}

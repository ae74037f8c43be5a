/** What adding a route or setting a priority keeps, and what taking it out
    again gives back. */
module RouteTheorems {
  import opened Wrappers
  import opened Edit
  import opened EditTheorems
  import opened Routes

  ghost predicate UniqueNames(names: seq<string>, fold: Fold) {
    forall i, j :: 0 <= i < j < |names| ==> fold(names[i]) != fold(names[j])
  }

  function ItemsOf(root: seq<Entry>, key: string): seq<Item> {
    match EntriesOf(root, key)
    case Ok(Some(items)) => items
    case _ => []
  }

  lemma RouteEntryIsNamed(args: RouteArgs, inline_: bool)
    ensures Literal(RouteEntry(args, inline_), "name") == Some(args.name)
  {
    var entries := RouteEntry(args, inline_).entries;
    assert entries[0] == Entry("name", Text(args.name));
    assert Find(entries, "name") == Some(0);
  }

  /** One more name at `i`, folding like none of the others. */
  ghost predicate Inserted(before: seq<string>, after: seq<string>, i: nat, name: string, fold: Fold) {
    && i <= |before| && |after| == |before| + 1 && after[i] == name
    && (forall j :: 0 <= j < i ==> after[j] == before[j])
    && (forall j :: i < j < |after| ==> after[j] == before[j - 1])
    && (forall j :: 0 <= j < |after| && fold(after[j]) == fold(name) ==> j == i)
  }

  ghost predicate AtAnchor(names: seq<string>, i: nat, args: RouteArgs, fold: Fold) {
    && i < |names|
    && (args.before.Some? ==> i + 1 < |names| && fold(names[i + 1]) == fold(args.before.value))
    && (args.before.None? && args.after.Some? ==> i > 0 && fold(names[i - 1]) == fold(args.after.value))
    && (args.before.None? && args.after.None? ==> i == |names| - 1)
  }

  lemma InsertedRoute(before: seq<Item>, route: Item, i: nat, args: RouteArgs, fold: Fold)
    requires i <= |before| && Literal(route, "name") == Some(args.name) && Named(Strings(before, "name"), args.name, fold).None?
    requires Place(Strings(before, "name"), args, fold) == Ok(i)
    ensures var after := before[..i] + [route] + before[i..];
            && i < |after|
            && Inserted(Strings(before, "name"), Strings(after, "name"), i, args.name, fold)
            && AtAnchor(Strings(after, "name"), i, args, fold)
            && after[..i] == before[..i] && after[i + 1..] == before[i..]
  {
    hide *;
    StringsAround(before, route, i, args.name);
    PlaceIsAnchored(Strings(before, "name"), i, args, fold);
    NameInserted(Strings(before, "name"), i, args.name, fold);
    AroundInserted(before, route, i);
  }

  lemma AroundInserted<T>(before: seq<T>, one: T, i: nat)
    requires i <= |before|
    ensures var after := before[..i] + [one] + before[i..];
            |after| == |before| + 1 && after[..i] == before[..i] && after[i + 1..] == before[i..]
  {
  }

  lemma NameInserted(was: seq<string>, i: nat, name: string, fold: Fold)
    requires i <= |was| && Named(was, name, fold).None?
    ensures Inserted(was, was[..i] + [name] + was[i..], i, name, fold)
  {
  }

  lemma StringsAround(before: seq<Item>, route: Item, i: nat, name: string)
    requires i <= |before| && Literal(route, "name") == Some(name)
    ensures |Strings(before, "name")| == |before|
    ensures Strings(before[..i] + [route] + before[i..], "name")
            == Strings(before, "name")[..i] + [name] + Strings(before, "name")[i..]
  {
    hide Literal;
  }

  lemma PlaceIsAnchored(was: seq<string>, i: nat, args: RouteArgs, fold: Fold)
    requires Place(was, args, fold) == Ok(i)
    ensures AtAnchor(was[..i] + [args.name] + was[i..], i, args, fold)
  {
  }

  lemma InsertedKeepsUnique(before: seq<string>, after: seq<string>, i: nat, name: string, fold: Fold)
    requires Inserted(before, after, i, name, fold) && UniqueNames(before, fold)
    ensures UniqueNames(after, fold)
  {
  }

  lemma AddedItems(root: seq<Entry>, args: RouteArgs, fold: Fold) returns (i: nat)
    requires AfterAddRoute(root, args, fold).Ok?
    ensures var before, after := ItemsOf(root, "routes"), ItemsOf(AfterAddRoute(root, args, fold).value, "routes");
            && i <= |before| && Place(Strings(before, "name"), args, fold) == Ok(i)
            && Named(Strings(before, "name"), args.name, fold).None?
            && after == before[..i] + [RouteEntry(args, !Spelled(root, "routes", true))] + before[i..]
    ensures AfterAddRoute(root, args, fold).value
            == PutEntries(root, "routes", true, ItemsOf(AfterAddRoute(root, args, fold).value, "routes"))
    ensures EntriesOf(AfterAddRoute(root, args, fold).value, "routes")
            == Ok(Some(ItemsOf(AfterAddRoute(root, args, fold).value, "routes")))
  {
    var before := ItemsOf(root, "routes");
    i := Place(Strings(before, "name"), args, fold).value;
    var after := before[..i] + [RouteEntry(args, !Spelled(root, "routes", true))] + before[i..];
    PutEntriesTwice(root, "routes", true, after, after);
  }

  /** The new route stands at its anchor, the others keep their order, and
      folded names stay unique. */
  lemma AddPlacesTheRoute(root: seq<Entry>, args: RouteArgs, fold: Fold) returns (i: nat)
    requires AfterAddRoute(root, args, fold).Ok?
    ensures var before, after := ItemsOf(root, "routes"), ItemsOf(AfterAddRoute(root, args, fold).value, "routes");
            && i < |after| && after[..i] + after[i + 1..] == before
            && Inserted(Strings(before, "name"), Strings(after, "name"), i, args.name, fold)
            && AtAnchor(Strings(after, "name"), i, args, fold)
            && (UniqueNames(Strings(before, "name"), fold) ==> UniqueNames(Strings(after, "name"), fold))
  {
    hide *;
    i := AddedItems(root, args, fold);
    var before, after := ItemsOf(root, "routes"), ItemsOf(AfterAddRoute(root, args, fold).value, "routes");
    var route := RouteEntry(args, !Spelled(root, "routes", true));
    RouteEntryIsNamed(args, !Spelled(root, "routes", true));
    InsertedRoute(before, route, i, args, fold);
    assert before[..i] + before[i..] == before;
    if UniqueNames(Strings(before, "name"), fold) {
      InsertedKeepsUnique(Strings(before, "name"), Strings(after, "name"), i, args.name, fold);
    }
  }

  /** The shapes pruning gives back: nothing there, or nothing there empty. */
  predicate NothingEmpty(root: seq<Entry>, key: string) {
    match Get(root, SELECTION)
    case None => true
    case Some(Table(_, _, entries)) => (
      match Get(entries, key)
      case None => entries != []
      case Some(_) => ItemsOf(root, key) != [])
    case _ => false
  }

  lemma PutInto(root: seq<Entry>, key: string, asTables: bool, items: seq<Item>)
    requires EntriesOf(root, key).Ok?
    ensures Get(PutEntries(root, key, asTables, items), SELECTION) ==
            Some(SelectionOf(root).(entries := Put(SelectionOf(root).entries, key,
                                                   WithEntries(ArrayOf(SelectionOf(root), key, asTables), items))))
  {
    var selection := SelectionOf(root);
    PutThenGet(root, SELECTION, selection.(entries := Put(selection.entries, key, WithEntries(ArrayOf(selection, key, asTables), items))));
  }

  /** Entries put and the same ones taken out again. */
  lemma TakeUndoesPutIff(root: seq<Entry>, key: string, asTables: bool, more: seq<Item>)
    requires EntriesOf(root, key).Ok?
    ensures TakeEntries(PutEntries(root, key, asTables, more), key, ItemsOf(root, key)) == root <==> NothingEmpty(root, key)
  {
    var selection, items := SelectionOf(root), ItemsOf(root, key);
    var later := PutEntries(root, key, asTables, more);
    PutInto(root, key, asTables, more);
    PutEntriesTwice(root, key, asTables, more, items);
    if items != [] {
      PutBack(selection.entries, key);
      PutBack(root, SELECTION);
    } else {
      var put := WithEntries(ArrayOf(selection, key, asTables), more);
      PutTwice(selection.entries, key, put, put);
      var left := Drop(selection.entries, key);
      PutTwice(root, SELECTION, selection.(entries := Put(selection.entries, key, put)), selection.(entries := left));
      assert TakeEntries(later, key, items) ==
        if left == [] then Drop(root, SELECTION) else Put(root, SELECTION, selection.(entries := left));
      DropsAndReturns(root, selection, key, left);
    }
  }

  lemma DropsAndReturns(root: seq<Entry>, selection: Item, key: string, left: seq<Entry>)
    requires selection.Table? && selection == SelectionOf(root) && left == Drop(selection.entries, key)
    requires EntriesOf(root, key).Ok? && ItemsOf(root, key) == []
    ensures (if left == [] then Drop(root, SELECTION) else Put(root, SELECTION, selection.(entries := left))) == root <==>
            NothingEmpty(root, key)
  {
    TableComesBackIff(root, SELECTION, selection, left);
    DropThenGet(selection.entries, key);
    if Get(selection.entries, key).Some? {
      assert |left| < |selection.entries|;
    }
  }

  /** A route removed right after it was added: the document comes back exactly
      when neither `[selection]` nor its routes were there empty. */
  lemma RemoveRouteUndoesAddRouteIff(root: seq<Entry>, args: RouteArgs, fold: Fold)
    requires AfterAddRoute(root, args, fold).Ok?
    ensures var back := AfterRemoveRoute(AfterAddRoute(root, args, fold).value, args.name, fold);
            back.Ok? && (back.value == root <==> NothingEmpty(root, "routes"))
  {
    var i := AddPlacesTheRoute(root, args, fold);
    var j := AddedItems(root, args, fold);
    var later := AfterAddRoute(root, args, fold).value;
    var after := ItemsOf(later, "routes");
    RemovesTheNamed(later, after, i, args.name, fold);
    TakeUndoesPutIff(root, "routes", true, after);
  }

  lemma RemovesTheNamed(root: seq<Entry>, items: seq<Item>, i: nat, name: string, fold: Fold)
    requires EntriesOf(root, "routes") == Ok(Some(items)) && i < |items|
    requires fold(Strings(items, "name")[i]) == fold(name)
    requires forall j :: 0 <= j < |items| && fold(Strings(items, "name")[j]) == fold(name) ==> j == i
    ensures AfterRemoveRoute(root, name, fold) == Ok(TakeEntries(root, "routes", items[..i] + items[i + 1..]))
  {
    assert Named(Strings(items, "name"), name, fold) == Some(i);
  }

  lemma {:induction false} RetainedIsAll(items: seq<Item>, existing: seq<string>)
    requires !AnyTargeted(items, existing)
    ensures Retained(items, existing) == items
  {
    if items != [] {
      var front := items[..|items| - 1];
      assert !Targeted(items[|items| - 1], existing);
      assert forall i :: 0 <= i < |front| ==> front[i] == items[i] && !Targeted(items[i], existing);
      RetainedIsAll(front, existing);
      assert items == front + [items[|items| - 1]];
    }
  }

  lemma PriorityEntryIsTargeted(reference: string, value: string, inline_: bool)
    ensures Targeted(PriorityEntry(reference, value, inline_), [reference])
  {
    var entries := PriorityEntry(reference, value, inline_).entries;
    assert entries[0] == Entry("account", Text(reference)) && Find(entries, "account") == Some(0);
  }

  /** A priority cleared right after it was first set, likewise. */
  lemma ClearUndoesSetPriorityIff(root: seq<Entry>, reference: string, value: string)
    requires EntriesOf(root, "priorities").Ok? && !AnyTargeted(ItemsOf(root, "priorities"), [reference])
    ensures var later := AfterSetPriority(root, reference, value, []);
            && later.Ok? && AfterClearPriority(later.value, [reference]).Ok?
            && (AfterClearPriority(later.value, [reference]).value == root <==> NothingEmpty(root, "priorities"))
  {
    var items := ItemsOf(root, "priorities");
    var entry := PriorityEntry(reference, value, !Spelled(root, "priorities", false));
    var more := items + [entry];
    PutEntriesTwice(root, "priorities", false, more, more);
    PriorityEntryIsTargeted(reference, value, !Spelled(root, "priorities", false));
    assert more[..|more| - 1] == items;
    RetainedIsAll(items, [reference]);
    TakeUndoesPutIff(root, "priorities", false, more);
  }

  /** Setting a priority leaves the entries of other accounts and their order,
      and every entry of this account then carries the value. */
  lemma SetPriorityReachesItsEntries(root: seq<Entry>, reference: string, value: string, existing: seq<string>)
    requires AfterSetPriority(root, reference, value, existing).Ok?
    ensures var before, after := ItemsOf(root, "priorities"), ItemsOf(AfterSetPriority(root, reference, value, existing).value, "priorities");
            && |after| == |before| + (if AnyTargeted(before, existing) then 0 else 1)
            && (forall i :: 0 <= i < |before| && !Targeted(before[i], existing) ==> after[i] == before[i])
            && (forall i :: 0 <= i < |before| && Targeted(before[i], existing) ==>
                  after[i].Table? && Get(after[i].entries, "value") == Some(Scalar(value))
                  && Literal(after[i], "account") == Literal(before[i], "account"))
  {
    SetItems(root, reference, value, existing);
    hide AfterSetPriority, ItemsOf, Literal;
    forall i | 0 <= i < |ItemsOf(root, "priorities")| && Targeted(ItemsOf(root, "priorities")[i], existing)
      ensures var entry := Valued(ItemsOf(root, "priorities")[i], value);
              && entry.Table? && Get(entry.entries, "value") == Some(Scalar(value))
              && Literal(entry, "account") == Literal(ItemsOf(root, "priorities")[i], "account")
    {
      ValuedCarries(ItemsOf(root, "priorities")[i], value, existing);
    }
  }

  /** The entries after a priority was set. */
  lemma SetItems(root: seq<Entry>, reference: string, value: string, existing: seq<string>)
    requires AfterSetPriority(root, reference, value, existing).Ok?
    ensures var before := ItemsOf(root, "priorities");
            ItemsOf(AfterSetPriority(root, reference, value, existing).value, "priorities") ==
            if AnyTargeted(before, existing) then Prioritised(before, existing, value)
            else before + [PriorityEntry(reference, value, !Spelled(root, "priorities", false))]
  {
    hide Prioritised, PriorityEntry, AnyTargeted, Spelled, PutEntries, EntriesOf;
    var before := ItemsOf(root, "priorities");
    var after := if AnyTargeted(before, existing) then Prioritised(before, existing, value)
                 else before + [PriorityEntry(reference, value, !Spelled(root, "priorities", false))];
    PutEntriesTwice(root, "priorities", false, after, after);
  }

  lemma ValuedCarries(entry: Item, value: string, existing: seq<string>)
    requires Targeted(entry, existing)
    ensures var later := Valued(entry, value);
            && later.Table? && Get(later.entries, "value") == Some(Scalar(value))
            && Literal(later, "account") == Literal(entry, "account")
  {
    PutThenGet(entry.entries, "value", Scalar(value));
  }

  /** Nothing outside the array changes: not elsewhere in `[selection]`, not elsewhere. */
  lemma PutTouchesNothingElse(root: seq<Entry>, key: string, asTables: bool, items: seq<Item>, other: seq<string>)
    requires EntriesOf(root, key).Ok? && other != [] && Unrelated(other, [SELECTION, key])
    ensures Lookup(PutEntries(root, key, asTables, items), other) == Lookup(root, other)
  {
    var selection := SelectionOf(root);
    var put := WithEntries(ArrayOf(selection, key, asTables), items);
    PutThenGet(root, SELECTION, selection.(entries := Put(selection.entries, key, put)));
    PutThenGet(selection.entries, key, put);
    if other[0] == SELECTION {
      assert |other| > 1 by {
        assert other == [other[0]] + other[1..];
      }
      assert other[1] != key by {
        assert other[1] == key ==> [SELECTION, key] <= other;
      }
      assert other[1..][0] == other[1];
    }
  }

  // ---------------------------------------------------------------- what the entries hold

  /** The texts of an array member of an entry. */
  function TextsOf(entry: Item, key: string): Option<seq<string>> {
    match entry
    case Table(_, _, entries) => (
      match Get(entries, key)
      case Some(Array(items)) =>
        if forall i :: 0 <= i < |items| ==> items[i].Text?
        then Some(seq(|items|, i requires 0 <= i < |items| => if items[i].Text? then items[i].s else "")) else None
      case _ => None)
    case _ => None
  }

  lemma TextsHold(texts: seq<string>, entry: Item, key: string)
    requires entry.Table? && Get(entry.entries, key) == Some(Texts(texts))
    ensures TextsOf(entry, key) == Some(texts)
  {
    var read := TextsOf(entry, key);
    assert read.Some? && read.value == texts;
  }

  /** A route's entry holds its arguments under their names, and no others. */
  lemma RouteEntryHolds(args: RouteArgs, inline_: bool)
    ensures var entry := RouteEntry(args, inline_);
            && Literal(entry, "name") == Some(args.name)
            && TextsOf(entry, "patterns") == Some(args.patterns)
            && TextsOf(entry, "accounts") == (if args.accounts == [] then None else Some(args.accounts))
            && Literal(entry, "bucket") == args.bucket
  {
    var entry := RouteEntry(args, inline_);
    var entries := entry.entries;
    assert entries[0] == Entry("name", Text(args.name)) && entries[1] == Entry("patterns", Texts(args.patterns));
    FoundFirst(entries, 0);
    FoundFirst(entries, 1);
    TextsHold(args.patterns, entry, "patterns");
    if args.accounts != [] {
      assert entries[2] == Entry("accounts", Texts(args.accounts));
      FoundFirst(entries, 2);
      TextsHold(args.accounts, entry, "accounts");
    } else {
      NotThere(entries, "accounts");
    }
    if args.bucket.Some? {
      var last := |entries| - 1;
      assert entries[last] == Entry("bucket", Text(args.bucket.value));
      FoundFirst(entries, last);
    } else {
      NotThere(entries, "bucket");
    }
  }

  /** The route added carries what it was added with. */
  lemma AddedRouteHolds(root: seq<Entry>, args: RouteArgs, fold: Fold) returns (i: nat)
    requires AfterAddRoute(root, args, fold).Ok?
    ensures var before, after := ItemsOf(root, "routes"), ItemsOf(AfterAddRoute(root, args, fold).value, "routes");
            && i < |after| && after[..i] + after[i + 1..] == before
            && Literal(after[i], "name") == Some(args.name)
            && TextsOf(after[i], "patterns") == Some(args.patterns)
            && TextsOf(after[i], "accounts") == (if args.accounts == [] then None else Some(args.accounts))
            && Literal(after[i], "bucket") == args.bucket
  {
    hide *;
    i := AddedItems(root, args, fold);
    var before, after := ItemsOf(root, "routes"), ItemsOf(AfterAddRoute(root, args, fold).value, "routes");
    AroundInserted(before, RouteEntry(args, !Spelled(root, "routes", true)), i);
    RouteEntryHolds(args, !Spelled(root, "routes", true));
    assert before[..i] + before[i..] == before;
  }

  lemma {:induction false} FoundFirst(entries: seq<Entry>, i: nat)
    requires i < |entries| && forall j :: 0 <= j < i ==> entries[j].key != entries[i].key
    ensures Get(entries, entries[i].key) == Some(entries[i].item)
  {
    var found := Find(entries, entries[i].key);
    assert found.Some? && found.value == i;
  }

  lemma NotThere(entries: seq<Entry>, key: string)
    requires forall j :: 0 <= j < |entries| ==> entries[j].key != key
    ensures Get(entries, key).None?
  {
  }

  /** A route is added exactly when its array can be read, no route folds to its
      name, and its anchor, when it names one, is there. */
  lemma AddRouteAcceptedIff(root: seq<Entry>, args: RouteArgs, fold: Fold)
    ensures var names := Strings(ItemsOf(root, "routes"), "name");
            var anchor := if args.before.Some? then args.before else args.after;
            AfterAddRoute(root, args, fold).Ok? <==>
            && EntriesOf(root, "routes").Ok?
            && (forall i :: 0 <= i < |names| ==> fold(names[i]) != fold(args.name))
            && (anchor.Some? ==> exists i :: 0 <= i < |names| && fold(names[i]) == fold(anchor.value))
  {
    var names := Strings(ItemsOf(root, "routes"), "name");
    var anchor := if args.before.Some? then args.before else args.after;
    hide Strings, RouteEntry, PutEntries, Spelled;
    if EntriesOf(root, "routes").Ok? {
      var same := Named(names, args.name, fold);
      if anchor.Some? {
        var at := Named(names, anchor.value, fold);
        assert at.Some? ==> fold(names[at.value]) == fold(anchor.value);
      }
    }
  }

  /** Removing takes out one route that folds to the name, the first, and is
      accepted exactly when there is one. */
  lemma RemoveTakesTheFirst(root: seq<Entry>, name: string, fold: Fold)
    ensures var names := Strings(ItemsOf(root, "routes"), "name");
            AfterRemoveRoute(root, name, fold).Ok? <==>
            EntriesOf(root, "routes").Ok? && exists i :: 0 <= i < |names| && fold(names[i]) == fold(name)
    ensures AfterRemoveRoute(root, name, fold).Ok? ==>
              exists i :: 0 <= i < |ItemsOf(root, "routes")|
                && fold(Strings(ItemsOf(root, "routes"), "name")[i]) == fold(name)
                && (forall j :: 0 <= j < i ==> fold(Strings(ItemsOf(root, "routes"), "name")[j]) != fold(name))
                && AfterRemoveRoute(root, name, fold) ==
                   Ok(TakeEntries(root, "routes", ItemsOf(root, "routes")[..i] + ItemsOf(root, "routes")[i + 1..]))
  {
    var names := Strings(ItemsOf(root, "routes"), "name");
    var found := Named(names, name, fold);
    assert |names| == |ItemsOf(root, "routes")|;
    hide Strings, TakeEntries;
    if found.Some? {
      assert fold(names[found.value]) == fold(name);
    }
  }

  /** Where the account has no entry, the one appended is for the account and
      carries the value. */
  lemma AppendedPriorityHolds(root: seq<Entry>, reference: string, value: string, existing: seq<string>)
    requires AfterSetPriority(root, reference, value, existing).Ok? && !AnyTargeted(ItemsOf(root, "priorities"), existing)
    ensures var after := ItemsOf(AfterSetPriority(root, reference, value, existing).value, "priorities");
            && after != [] && after[..|after| - 1] == ItemsOf(root, "priorities")
            && var entry := after[|after| - 1];
               Literal(entry, "account") == Some(reference)
               && entry.Table? && Get(entry.entries, "value") == Some(Scalar(value))
  {
    SetItems(root, reference, value, existing);
    var entries := PriorityEntry(reference, value, !Spelled(root, "priorities", false)).entries;
    FoundFirst(entries, 0);
    FoundFirst(entries, 1);
    hide AfterSetPriority, ItemsOf, EntriesOf, AnyTargeted, Targeted;
  }

  lemma {:induction false} RetainedIn(items: seq<Item>, existing: seq<string>, item: Item)
    ensures item in Retained(items, existing) <==> item in items && !Targeted(item, existing)
  {
    if items != [] {
      RetainedIn(items[..|items| - 1], existing, item);
      assert items == items[..|items| - 1] + [items[|items| - 1]];
    }
  }

  lemma {:induction false} RetainedInOrder(first: seq<Item>, second: seq<Item>, existing: seq<string>)
    ensures Retained(first + second, existing) == Retained(first, existing) + Retained(second, existing)
    decreases |second|
  {
    if second == [] {
      assert first + second == first;
    } else {
      var n := |second| - 1;
      RetainedInOrder(first, second[..n], existing);
      assert (first + second)[..|first + second| - 1] == first + second[..n];
    }
  }

  /** Only a text counts as the name or account of an entry. */
  lemma LiteralIff(entry: Item, key: string, text: string)
    ensures Literal(entry, key) == Some(text) <==> entry.Table? && Get(entry.entries, key) == Some(Text(text))
  {
  }

  /** The arrays stand under `selection`. */
  lemma EntriesStandUnderSelection(root: seq<Entry>, key: string)
    ensures EntriesOf(root, key).Ok? && EntriesOf(root, key).value.Some? <==>
            && Lookup(root, ["selection", key]).Some?
            && (Lookup(root, ["selection", key]).value.Array? || Lookup(root, ["selection", key]).value.Tables?)
    ensures EntriesOf(root, key).Ok? && EntriesOf(root, key).value.Some? ==>
              Lookup(root, ["selection", key]).value.items == EntriesOf(root, key).value.value
  {
    assert ["selection", key][1..] == [key];
  }

  /** Why the verbs for the two arrays refuse: the array cannot be read, a route
      of that name is there, or a route asked for is not. */
  lemma RefusedBecause(root: seq<Entry>, args: RouteArgs, fold: Fold, reference: string, value: string, existing: seq<string>)
    ensures var added, removed := AfterAddRoute(root, args, fold), AfterRemoveRoute(root, args.name, fold);
            var there := NamesRoute(root, args.name, fold);
            && (EntriesOf(root, "routes").Err? ==> added == removed == Err(EntriesOf(root, "routes").error))
            && (EntriesOf(root, "routes").Ok? ==>
                  && (removed == Err(NotFound) <==> !there) && (removed.Ok? <==> there)
                  && (added == Err(Conflict) <==> there) && (added.Err? ==> added.error in {Conflict, NotFound}))
    ensures AfterSetPriority(root, reference, value, existing).Ok? == AfterClearPriority(root, existing).Ok?
            == EntriesOf(root, "priorities").Ok?
    ensures EntriesOf(root, "priorities").Err? ==>
              AfterSetPriority(root, reference, value, existing) == AfterClearPriority(root, existing)
              == Err(EntriesOf(root, "priorities").error)
    ensures forall key :: EntriesOf(root, key) == Err(NotATable) <==>
              Lookup(root, ["selection"]).Some? && !Lookup(root, ["selection"]).value.Table?
    ensures forall key :: EntriesOf(root, key).Err? ==> EntriesOf(root, key).error in {NotATable, NotAnArray}
  {
    RefusedRoutes(root, args, fold);
    hide Strings, RouteEntry, NamesRoute, AfterAddRoute, AfterRemoveRoute;
  }

  ghost predicate NamesRoute(root: seq<Entry>, name: string, fold: Fold) {
    exists i :: 0 <= i < |ItemsOf(root, "routes")| && fold(Strings(ItemsOf(root, "routes"), "name")[i]) == fold(name)
  }

  lemma RefusedRoutes(root: seq<Entry>, args: RouteArgs, fold: Fold)
    ensures var added, removed := AfterAddRoute(root, args, fold), AfterRemoveRoute(root, args.name, fold);
            var there := NamesRoute(root, args.name, fold);
            && (EntriesOf(root, "routes").Err? ==> added == removed == Err(EntriesOf(root, "routes").error))
            && (EntriesOf(root, "routes").Ok? ==>
                  && (removed == Err(NotFound) <==> !there) && (removed.Ok? <==> there)
                  && (added == Err(Conflict) <==> there) && (added.Err? ==> added.error in {Conflict, NotFound}))
  {
    var names := Strings(ItemsOf(root, "routes"), "name");
    var found := Named(names, args.name, fold);
    assert |names| == |ItemsOf(root, "routes")|;
    hide Strings, TakeEntries, PutEntries, RouteEntry, Spelled;
    assert found.Some? ==> fold(names[found.value]) == fold(args.name);
  }

  // ---------------------------------------------------------------- the pipeline

  datatype Stage = Reading | Editing | Validating | Reaching | Writing | Reloading | Restoring

  /** Parsing and printing a document; validation of the bytes against the schema. */
  datatype Toml = Toml(parse: Bytes -> Option<Item>, print_: Item -> Bytes, valid: Bytes -> bool)

  /** What the edit makes of these bytes, when they parse and it is valid. */
  function CandidateOf(toml: Toml, edit: Item -> Result<Item, Failure>, bytes: Bytes): Option<Bytes> {
    match toml.parse(bytes)
    case None => None
    case Some(document) =>
      match edit(document)
      case Err(_) => None
      case Ok(edited) => if toml.valid(toml.print_(edited)) then Some(toml.print_(edited)) else None
  }

  /** The candidate got there and was not taken back. */
  predicate CandidateStays(reachable: bool, first: WriteOutcome, applies: bool, second: WriteOutcome) {
    reachable && (first.WrittenYetFailed? || (first.Written? && (applies || second.NotWritten?)))
  }

  class ConfigFile {
    var bytes: Bytes

    constructor (bytes: Bytes)
      ensures this.bytes == bytes
    {
      this.bytes := bytes;
    }

    /** An edit, written only when it validates and the server answers, and put
        back when the server refuses it. The file ends with the candidate exactly
        when the reload applied, when the write failed after its rename, or when
        putting the previous bytes back failed before its own. */
    method EditAndReload(toml: Toml, edit: Item -> Result<Item, Failure>, reachable: bool, first: WriteOutcome,
                         applies: bool, second: WriteOutcome)
      returns (r: Result<(), Stage>)
      modifies this
      ensures var candidate := CandidateOf(toml, edit, old(bytes));
              && bytes == (if candidate.Some? && CandidateStays(reachable, first, applies, second)
                           then candidate.value else old(bytes))
              && (r.Ok? <==> candidate.Some? && reachable && first.Written? && applies)
              && (r.Err? && r.error in {Reading, Editing, Validating} <==> candidate.None?)
      ensures r == Err(Reading) <==> toml.parse(old(bytes)).None?
      ensures r == Err(Editing) <==> toml.parse(old(bytes)).Some? && edit(toml.parse(old(bytes)).value).Err?
      ensures CandidateOf(toml, edit, old(bytes)).Some? ==>
                && (r == Err(Reaching) <==> !reachable)
                && (r == Err(Writing) <==> reachable && !first.Written?)
                && (r == Err(Reloading) <==> reachable && first.Written? && !applies && second.Written?)
                && (r == Err(Restoring) <==> reachable && first.Written? && !applies && !second.Written?)
    {
      var previous := bytes;
      var document := toml.parse(previous);
      if document.None? {
        return Err(Reading);
      }
      var edited := edit(document.value);
      if edited.Err? {
        return Err(Editing);
      }
      var candidate := toml.print_(edited.value);
      if !toml.valid(candidate) {
        return Err(Validating);
      }
      if !reachable {
        return Err(Reaching);
      }
      if !first.NotWritten? {
        bytes := candidate;
      }
      if !first.Written? {
        return Err(Writing);
      }
      if applies {
        return Ok(());
      }
      if !second.NotWritten? {
        bytes := previous;
      }
      return if second.Written? then Err(Reloading) else Err(Restoring);
    }
  }
}

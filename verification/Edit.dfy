/** Editing the operator's TOML document in place: setting and unsetting a
    dotted key, and the pruning that leaves nothing behind. */
module Edit {
  import opened Wrappers

  /** A document item. Tables keep their entries in order; `inline` tells
      `{ }` from a `[section]`, `implicit` a section that has no header of its own. */
  datatype Item =
    | Text(s: string)
    | Scalar(text: string)
    | Array(items: seq<Item>)
    | Tables(items: seq<Item>)
    | Table(inline_: bool, implicit: bool, entries: seq<Entry>)

  datatype Entry = Entry(key: string, item: Item)

  datatype Failure = Usage | NotFound | NotATable | NotAnArray | Conflict

  // ---------------------------------------------------------------- one table

  function Find(entries: seq<Entry>, key: string): (i: Option<nat>)
    ensures i.Some? ==> i.value < |entries| && entries[i.value].key == key
    ensures i.Some? ==> forall j :: 0 <= j < i.value ==> entries[j].key != key
    ensures i.None? ==> forall j :: 0 <= j < |entries| ==> entries[j].key != key
  {
    if entries == [] then None
    else if entries[0].key == key then Some(0)
    else
      assert forall j :: 0 < j < |entries| ==> entries[j] == entries[1..][j - 1];
      match Find(entries[1..], key)
      case None => None
      case Some(i) => Some(i + 1)
  }

  function Get(entries: seq<Entry>, key: string): Option<Item> {
    match Find(entries, key)
    case None => None
    case Some(i) => Some(entries[i].item)
  }

  /** In place when the key is there, at the end otherwise. */
  function Put(entries: seq<Entry>, key: string, item: Item): seq<Entry> {
    match Find(entries, key)
    case None => entries + [Entry(key, item)]
    case Some(i) => entries[i := Entry(key, item)]
  }

  function Drop(entries: seq<Entry>, key: string): seq<Entry> {
    match Find(entries, key)
    case None => entries
    case Some(i) => entries[..i] + entries[i + 1..]
  }

  /** No key twice: what the parser guarantees of every table. */
  ghost predicate Distinct(entries: seq<Entry>) {
    forall i, j :: 0 <= i < j < |entries| ==> entries[i].key != entries[j].key
  }

  // ---------------------------------------------------------------- dotted keys

  /** An item created where there was nothing takes the spelling of its parent. */
  function Fresh(inline_: bool): Item {
    Table(inline_, !inline_, [])
  }

  /** The tables named by `path` are walked, and created where missing. */
  function Set(entries: seq<Entry>, inline_: bool, path: seq<string>, last: string, value: Item)
    : Result<seq<Entry>, Failure>
    decreases |path|
  {
    if path == [] then Ok(Put(entries, last, value))
    else
      var found := Get(entries, path[0]);
      var sub := if found.None? then Fresh(inline_) else found.value;
      if !sub.Table? then Err(NotATable) else
      match Set(sub.entries, sub.inline_, path[1..], last, value)
      case Err(why) => Err(why)
      case Ok(inner) => Ok(Put(entries, path[0], sub.(entries := inner)))
  }

  /** The key goes, and with it every table this leaves empty. */
  function Unset(entries: seq<Entry>, path: seq<string>, last: string): Result<seq<Entry>, Failure>
    decreases |path|
  {
    var found := Get(entries, if path == [] then last else path[0]);
    if found.None? then Err(NotFound)
    else if path == [] then Ok(Drop(entries, last))
    else if !found.value.Table? then Err(NotATable) else
    match Unset(found.value.entries, path[1..], last)
    case Err(why) => Err(why)
    case Ok(inner) =>
      Ok(if inner == [] then Drop(entries, path[0]) else Put(entries, path[0], found.value.(entries := inner)))
  }

  function Split(key: string): seq<string> {
    if key == [] then [""]
    else if key[0] == '.' then [""] + Split(key[1..])
    else
      var rest := Split(key[1..]);
      if rest == [] then [[key[0]]] else [[key[0]] + rest[0]] + rest[1..]
  }

  predicate UnderVerb(key: string, name: string) {
    key == name || name + "." <= key
  }

  predicate TableArrayKey(key: string) {
    UnderVerb(key, "selection.routes") || UnderVerb(key, "selection.priorities")
  }

  predicate Editable(key: string) {
    !TableArrayKey(key) && "" !in Split(key) && Split(key) != []
  }

  function AfterSetKey(root: seq<Entry>, key: string, value: Item): Result<seq<Entry>, Failure> {
    if !Editable(key) then Err(Usage)
    else var s := Split(key); Set(root, false, s[..|s| - 1], s[|s| - 1], value)
  }

  function AfterUnsetKey(root: seq<Entry>, key: string): Result<seq<Entry>, Failure> {
    if !Editable(key) then Err(Usage)
    else var s := Split(key); Unset(root, s[..|s| - 1], s[|s| - 1])
  }

  // ---------------------------------------------------------------- the walk

  /** The table a path names; the root for an empty one. */
  function TableAt(root: Item, path: seq<string>): Option<Item>
    requires root.Table?
  {
    if path == [] then Some(root)
    else
      var sub := Get(root.entries, path[0]);
      if sub.None? || !sub.value.Table? then None else TableAt(sub.value, path[1..])
  }

  /** The table at `path` given other entries. */
  function Update(root: Item, path: seq<string>, entries: seq<Entry>): Item
    requires root.Table?
  {
    if path == [] then root.(entries := entries)
    else
      var sub := Get(root.entries, path[0]);
      if sub.None? || !sub.value.Table? then root
      else root.(entries := Put(root.entries, path[0], Update(sub.value, path[1..], entries)))
  }

  predicate Empty(item: Item) {
    match item
    case Table(_, _, entries) => entries == []
    case Array(items) => items == []
    case Tables(items) => items == []
    case _ => false
  }

  /** The document without what `path` names, when that is there and empty. */
  function WithoutEmpty(root: Item, path: seq<string>): (r: Option<Item>)
    requires root.Table? && path != []
    ensures r.Some? ==> r.value.Table?
  {
    var parents, last := path[..|path| - 1], path[|path| - 1];
    match TableAt(root, parents)
    case Some(Table(_, _, entries)) =>
      var item := Get(entries, last);
      if item.Some? && Empty(item.value) then Some(Update(root, parents, Drop(entries, last))) else None
    case _ => None
  }

  /** From the deepest segment up, stopping at the first that is not empty. */
  function Prune(root: Item, path: seq<string>): Item
    requires root.Table?
    ensures Prune(root, path).Table?
    decreases |path|
  {
    if path == [] then root
    else
      match WithoutEmpty(root, path)
      case None => root
      case Some(later) => Prune(later, path[..|path| - 1])
  }

  // ---------------------------------------------------------------- lemmas about one table

  lemma PutThenGet(entries: seq<Entry>, key: string, item: Item)
    ensures Get(Put(entries, key, item), key) == Some(item)
    ensures forall other :: other != key ==> Get(Put(entries, key, item), other) == Get(entries, other)
  {
    var later := Put(entries, key, item);
    var i := match Find(entries, key) case None => |entries| case Some(i) => i;
    assert later[i] == Entry(key, item) && forall j :: 0 <= j < i ==> later[j].key != key;
    assert Find(later, key) == Some(i);
    forall other | other != key
      ensures Get(later, other) == Get(entries, other)
    {
      var before, after := Find(entries, other), Find(later, other);
      assert before.Some? ==> later[before.value].key == other;
      assert after.Some? ==> entries[after.value].key == other;
    }
  }

  lemma PutTwice(entries: seq<Entry>, key: string, first: Item, second: Item)
    ensures Put(Put(entries, key, first), key, second) == Put(entries, key, second)
    ensures Drop(Put(entries, key, first), key) == Drop(entries, key)
  {
    var once := Put(entries, key, first);
    var i := match Find(entries, key) case None => |entries| case Some(i) => i;
    assert once[i].key == key && forall j :: 0 <= j < i ==> once[j].key != key;
    assert Find(once, key) == Some(i);
  }

  lemma PutBack(entries: seq<Entry>, key: string)
    requires Get(entries, key).Some?
    ensures Put(entries, key, Get(entries, key).value) == entries
  {
  }

  lemma DropThenGet(entries: seq<Entry>, key: string)
    ensures forall other :: other != key ==> Get(Drop(entries, key), other) == Get(entries, other)
    ensures Distinct(entries) ==> Get(Drop(entries, key), key).None?
    ensures Get(entries, key).None? ==> Drop(entries, key) == entries
  {
    var later := Drop(entries, key);
    if Find(entries, key).Some? {
      var i := Find(entries, key).value;
      assert forall j :: 0 <= j < |later| ==> later[j] == entries[if j < i then j else j + 1];
      forall other | other != key
        ensures Get(later, other) == Get(entries, other)
      {
        var before, after := Find(entries, other), Find(later, other);
        if before.Some? {
          assert later[if before.value < i then before.value else before.value - 1].key == other;
        }
      }
    }
  }

  // ---------------------------------------------------------------- lemmas about the walk

  lemma {:induction false} UpdateThenAt(root: Item, path: seq<string>, entries: seq<Entry>, other: seq<Entry>)
    requires root.Table? && TableAt(root, path).Some? && TableAt(root, path).value.Table?
    ensures var later := Update(root, path, entries);
            && later.Table? && later.inline_ == root.inline_ && later.implicit == root.implicit
            && TableAt(later, path) == Some(TableAt(root, path).value.(entries := entries))
            && Update(later, path, other) == Update(root, path, other)
    decreases |path|
  {
    if path != [] {
      var sub := Get(root.entries, path[0]).value;
      UpdateThenAt(sub, path[1..], entries, other);
      PutThenGet(root.entries, path[0], Update(sub, path[1..], entries));
      PutTwice(root.entries, path[0], Update(sub, path[1..], entries), Update(sub, path[1..], other));
    }
  }

  lemma {:induction false} AtIsATable(root: Item, path: seq<string>)
    requires root.Table? && TableAt(root, path).Some?
    ensures TableAt(root, path).value.Table?
    decreases |path|
  {
    if path != [] {
      AtIsATable(Get(root.entries, path[0]).value, path[1..]);
    }
  }

  lemma {:induction false} AtNext(root: Item, path: seq<string>, i: nat)
    requires root.Table? && i < |path| && TableAt(root, path[..i]).Some? && TableAt(root, path[..i]).value.Table?
    ensures var sub := Get(TableAt(root, path[..i]).value.entries, path[i]);
            TableAt(root, path[..i + 1]) == if sub.Some? && sub.value.Table? then sub else None
    decreases i
  {
    if i > 0 {
      var sub := Get(root.entries, path[0]).value;
      assert path[..i][1..] == path[1..][..i - 1] && path[..i + 1][1..] == path[1..][..i];
      AtNext(sub, path[1..], i - 1);
    } else {
      assert path[..1][1..] == [];
    }
  }

  /** Setting below a table that is there is setting within it. */
  lemma {:induction false} SetDescends(root: Item, path: seq<string>, i: nat, last: string, value: Item)
    requires root.Table? && i <= |path| && TableAt(root, path[..i]).Some? && TableAt(root, path[..i]).value.Table?
    ensures var t := TableAt(root, path[..i]).value;
            Set(root.entries, root.inline_, path, last, value) ==
            match Set(t.entries, t.inline_, path[i..], last, value)
            case Err(why) => Err(why)
            case Ok(inner) => Ok(Update(root, path[..i], inner).entries)
    decreases i
  {
    if i == 0 {
      assert path[0..] == path;
    } else {
      var sub := Get(root.entries, path[0]).value;
      assert path[..i][1..] == path[1..][..i - 1] && path[i..] == path[1..][i - 1..];
      SetDescends(sub, path[1..], i - 1, last, value);
      var inner := Set(TableAt(root, path[..i]).value.entries, TableAt(root, path[..i]).value.inline_, path[i..], last, value);
      if inner.Ok? {
        UpdateThenAt(sub, path[..i][1..], inner.value, inner.value);
      }
    }
  }

  lemma {:induction false} UnsetFailsBelow(root: Item, path: seq<string>, i: nat, last: string)
    requires root.Table? && i <= |path| && TableAt(root, path[..i]).Some? && TableAt(root, path[..i]).value.Table?
    ensures var inner := Unset(TableAt(root, path[..i]).value.entries, path[i..], last);
            && Unset(root.entries, path, last).Err? == inner.Err?
            && (inner.Err? ==> Unset(root.entries, path, last) == inner)
    decreases i
  {
    if i == 0 {
      assert path[0..] == path;
    } else {
      assert path[..i][1..] == path[1..][..i - 1] && path[i..] == path[1..][i - 1..];
      UnsetFailsBelow(Get(root.entries, path[0]).value, path[1..], i - 1, last);
    }
  }

  /** Creating a table on the way does not change what is being set. */
  lemma CreatedOnTheWay(root: Item, path: seq<string>, i: nat, last: string, value: Item)
    requires root.Table? && i < |path| && TableAt(root, path[..i]).Some? && TableAt(root, path[..i]).value.Table?
    requires Get(TableAt(root, path[..i]).value.entries, path[i]).None?
    ensures var t := TableAt(root, path[..i]).value;
            var later := Update(root, path[..i], Put(t.entries, path[i], Fresh(t.inline_)));
            && later.Table? && later.inline_ == root.inline_
            && TableAt(later, path[..i + 1]) == Some(Fresh(t.inline_))
            && Set(later.entries, later.inline_, path, last, value) == Set(root.entries, root.inline_, path, last, value)
  {
    var t := TableAt(root, path[..i]).value;
    var entries := Put(t.entries, path[i], Fresh(t.inline_));
    var later := Update(root, path[..i], entries);
    UpdateThenAt(root, path[..i], entries, entries);
    PutThenGet(t.entries, path[i], Fresh(t.inline_));
    AtNext(later, path, i);
    SetDescends(root, path, i, last, value);
    SetDescends(later, path, i, last, value);
    var rest := path[i..];
    var inner := Set([], t.inline_, rest[1..], last, value);
    if inner.Ok? {
      var put := Fresh(t.inline_).(entries := inner.value);
      PutTwice(t.entries, path[i], Fresh(t.inline_), put);
      UpdateThenAt(root, path[..i], entries, Put(t.entries, path[i], put));
    }
  }

  // ---------------------------------------------------------------- the two formulations of pruning

  /** Seen from the front: a table goes exactly when pruning inside it left nothing. */
  lemma {:induction false} PruneFromTheFront(root: Item, path: seq<string>)
    requires root.Table? && path != [] && TableAt(root, path).Some?
    ensures var sub := Get(root.entries, path[0]).value;
            var inner := Prune(sub, path[1..]);
            Prune(root, path) ==
            root.(entries := if inner.entries == [] then Drop(root.entries, path[0]) else Put(root.entries, path[0], inner))
    decreases |path|
  {
    hide *;
    var n := |path| - 1;
    FirstIsATable(root, path);
    var sub, parents := Get(root.entries, path[0]).value, path[..n];
    if n == 0 {
      PruneFromTheFrontOfOne(root, path);
      PruneNothing(sub);
      assert path[1..] == [];
    } else {
      WithoutEmptyDescends(root, path);
      PruneStep(root, path);
      PruneStep(sub, path[1..]);
      match WithoutEmpty(sub, path[1..])
      case None =>
        PutBack(root.entries, path[0]);
        SubHasEntries(root, path);
      case Some(later) =>
        var root' := root.(entries := Put(root.entries, path[0], later));
        PutThenGet(root.entries, path[0], later);
        PutTwice(root.entries, path[0], later, Prune(later, path[1..][..n - 1]));
        assert parents[1..] == path[1..][..n - 1];
        AtFromFirst(root', parents);
        PruneFromTheFront(root', parents);
    }
  }

  lemma FirstIsATable(root: Item, path: seq<string>)
    requires root.Table? && path != [] && TableAt(root, path).Some?
    ensures Get(root.entries, path[0]).Some? && Get(root.entries, path[0]).value.Table?
  {
  }

  lemma AtFromFirst(root: Item, path: seq<string>)
    requires root.Table? && path != [] && Get(root.entries, path[0]).Some? && Get(root.entries, path[0]).value.Table?
    requires TableAt(Get(root.entries, path[0]).value, path[1..]).Some?
    ensures TableAt(root, path).Some?
  {
  }

  lemma PruneNothing(root: Item)
    requires root.Table?
    ensures Prune(root, []) == root
  {
  }

  lemma PruneStep(root: Item, path: seq<string>)
    requires root.Table? && path != []
    ensures Prune(root, path) ==
            match WithoutEmpty(root, path)
            case None => root
            case Some(later) => Prune(later, path[..|path| - 1])
  {
  }

  lemma PruneFromTheFrontOfOne(root: Item, path: seq<string>)
    requires root.Table? && |path| == 1 && TableAt(root, path).Some?
    ensures var sub := Get(root.entries, path[0]).value;
            Prune(root, path) ==
            root.(entries := if sub.entries == [] then Drop(root.entries, path[0]) else Put(root.entries, path[0], sub))
  {
    PutBack(root.entries, path[0]);
  }

  /** Below the first segment, dropping what is empty happens inside its table. */
  lemma WithoutEmptyDescends(root: Item, path: seq<string>)
    requires root.Table? && |path| > 1 && TableAt(root, path).Some?
    ensures var sub := Get(root.entries, path[0]).value;
            var inner := WithoutEmpty(sub, path[1..]);
            && WithoutEmpty(root, path) ==
               (if inner.None? then None else Some(root.(entries := Put(root.entries, path[0], inner.value))))
            && (inner.Some? ==> TableAt(inner.value, path[1..][..|path| - 2]).Some?)
  {
    var n := |path| - 1;
    var sub := Get(root.entries, path[0]).value;
    assert path[..n][1..] == path[1..][..n - 1] && path[1..][n - 1] == path[n];
    AtPrefix(root, path, n);
    var entries := TableAt(root, path[..n]).value.entries;
    UpdateThenAt(sub, path[1..][..n - 1], Drop(entries, path[n]), []);
  }

  lemma {:induction false} AtPrefix(root: Item, path: seq<string>, n: nat)
    requires root.Table? && n <= |path| && TableAt(root, path).Some?
    ensures TableAt(root, path[..n]).Some? && TableAt(root, path[..n]).value.Table?
    decreases n
  {
    if n > 0 {
      assert path[..n][1..] == path[1..][..n - 1];
      AtPrefix(Get(root.entries, path[0]).value, path[1..], n - 1);
    }
  }

  lemma SubHasEntries(root: Item, path: seq<string>)
    requires root.Table? && |path| > 1 && TableAt(root, path).Some?
    ensures Get(root.entries, path[0]).value.entries != []
  {
    assert Get(Get(root.entries, path[0]).value.entries, path[1..][0]).Some?;
  }

  /** Removing the key and then pruning is unsetting it. */
  lemma {:induction false} RemoveThenPruneIsUnset(root: Item, path: seq<string>, last: string)
    requires root.Table? && TableAt(root, path).Some? && TableAt(root, path).value.Table?
    requires Get(TableAt(root, path).value.entries, last).Some?
    ensures var t := TableAt(root, path).value;
            Unset(root.entries, path, last) == Ok(Prune(Update(root, path, Drop(t.entries, last)), path).entries)
    decreases |path|
  {
    if path != [] {
      var dropped := Drop(TableAt(root, path).value.entries, last);
      var sub := Get(root.entries, path[0]).value;
      RemoveThenPruneIsUnset(sub, path[1..], last);
      var later := Update(root, path, dropped);
      UpdateThenAt(root, path, dropped, dropped);
      PutThenGet(root.entries, path[0], Update(sub, path[1..], dropped));
      PruneFromTheFront(later, path);
      PutTwice(root.entries, path[0], Update(sub, path[1..], dropped), Prune(Update(sub, path[1..], dropped), path[1..]));
      PruneKeepsFlags(Update(sub, path[1..], dropped), path[1..]);
      UpdateThenAt(sub, path[1..], dropped, dropped);
    }
  }

  lemma {:induction false} PruneKeepsFlags(root: Item, path: seq<string>)
    requires root.Table?
    ensures Prune(root, path) == root.(entries := Prune(root, path).entries)
    decreases |path|
  {
    if path != [] && WithoutEmpty(root, path).Some? {
      var parents := path[..|path| - 1];
      UpdateThenAt(root, parents, Drop(TableAt(root, parents).value.entries, path[|path| - 1]), []);
      PruneKeepsFlags(WithoutEmpty(root, path).value, parents);
    }
  }

  // ---------------------------------------------------------------- the document

  class Document {
    var root: Item

    constructor (root: Item)
      requires root.Table? && !root.inline_
      ensures this.root == root
    {
      this.root := root;
    }

    /** Walks to the table the path names; with `create`, makes what is missing. */
    method ParentTable(path: seq<string>, create: bool, ghost last: string, ghost value: Item)
      returns (r: Result<(), Failure>)
      requires root.Table?
      modifies this
      ensures root.Table? && root.inline_ == old(root).inline_
      ensures r.Ok? ==> TableAt(root, path).Some?
      ensures !create ==> root == old(root)
      ensures !create && r.Err? ==> Unset(root.entries, path, last) == Err(r.error)
      ensures create ==> Set(root.entries, root.inline_, path, last, value)
                         == Set(old(root).entries, old(root).inline_, path, last, value)
      ensures create && r.Err? ==> Set(root.entries, root.inline_, path, last, value) == Err(r.error)
    {
      for i := 0 to |path|
        invariant root.Table? && root.inline_ == old(root).inline_ && TableAt(root, path[..i]).Some?
        invariant !create ==> root == old(root)
        invariant create ==> Set(root.entries, root.inline_, path, last, value)
                             == Set(old(root).entries, old(root).inline_, path, last, value)
      {
        AtIsATable(root, path[..i]);
        var table := TableAt(root, path[..i]).value;
        SetDescends(root, path, i, last, value);
        UnsetFailsBelow(root, path, i, last);
        AtNext(root, path, i);
        if Get(table.entries, path[i]).None? {
          if !create {
            return Err(NotFound);
          }
          CreatedOnTheWay(root, path, i, last, value);
          root := Update(root, path[..i], Put(table.entries, path[i], Fresh(table.inline_)));
        } else if !Get(table.entries, path[i]).value.Table? {
          return Err(NotATable);
        }
      }
      assert path[..|path|] == path;
      return Ok(());
    }

    method SetKey(key: string, value: Item) returns (r: Result<(), Failure>)
      requires root.Table? && !root.inline_
      modifies this
      ensures root.Table? && !root.inline_
      ensures r.Ok? <==> AfterSetKey(old(root).entries, key, value).Ok?
      ensures r.Ok? ==> root.entries == AfterSetKey(old(root).entries, key, value).value
      ensures r.Err? ==> AfterSetKey(old(root).entries, key, value) == Err(r.error)
    {
      if TableArrayKey(key) {
        return Err(Usage);
      }
      var segments := Split(key);
      if "" in segments || segments == [] {
        return Err(Usage);
      }
      var path, last := segments[..|segments| - 1], segments[|segments| - 1];
      r := ParentTable(path, true, last, value);
      if r.Err? {
        return;
      }
      AtIsATable(root, path);
      assert path[..|path|] == path && path[|path|..] == [];
      SetDescends(root, path, |path|, last, value);
      var parent := TableAt(root, path).value;
      UpdateThenAt(root, path, Put(parent.entries, last, value), []);
      root := Update(root, path, Put(parent.entries, last, value));
    }

    method UnsetKey(key: string) returns (r: Result<(), Failure>)
      requires root.Table? && !root.inline_
      modifies this
      ensures root.Table? && !root.inline_
      ensures r.Ok? <==> AfterUnsetKey(old(root).entries, key).Ok?
      ensures r.Ok? ==> root.entries == AfterUnsetKey(old(root).entries, key).value
      ensures r.Err? ==> root == old(root) && AfterUnsetKey(old(root).entries, key) == Err(r.error)
    {
      if TableArrayKey(key) {
        return Err(Usage);
      }
      var segments := Split(key);
      if "" in segments || segments == [] {
        return Err(Usage);
      }
      var path, last := segments[..|segments| - 1], segments[|segments| - 1];
      r := ParentTable(path, false, last, Scalar(""));
      if r.Err? {
        return;
      }
      AtIsATable(root, path);
      assert path[..|path|] == path && path[|path|..] == [];
      UnsetFailsBelow(root, path, |path|, last);
      var parent := TableAt(root, path).value;
      if Get(parent.entries, last).None? {
        return Err(NotFound);
      }
      RemoveThenPruneIsUnset(root, path, last);
      UpdateThenAt(root, path, Drop(parent.entries, last), []);
      PruneKeepsFlags(Update(root, path, Drop(parent.entries, last)), path);
      root := Update(root, path, Drop(parent.entries, last));
      PruneEmpty(path);
    }

    /** Walks from the deepest segment up, stopping at the first container that is not empty. */
    method PruneEmpty(path: seq<string>)
      requires root.Table?
      modifies this
      ensures root == Prune(old(root), path)
    {
      var depth := |path|;
      assert path[..depth] == path;
      while depth > 0
        invariant 0 <= depth <= |path| && root.Table?
        invariant Prune(root, path[..depth]) == Prune(old(root), path)
      {
        ghost var before := root;
        var last, parents := path[depth - 1], path[..depth - 1];
        assert path[..depth][..depth - 1] == parents;
        var parent := TableAt(root, parents);
        if parent.None? || !parent.value.Table? {
          return;
        }
        var item := Get(parent.value.entries, last);
        if item.None? || !Empty(item.value) {
          return;
        }
        root := Update(root, parents, Drop(parent.value.entries, last));
        assert WithoutEmpty(before, path[..depth]) == Some(root);
        depth := depth - 1;
      }
    }
  }
}

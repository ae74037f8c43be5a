/** What setting and unsetting a dotted key do to the rest of the document, and
    when one undoes the other. */
module EditTheorems {
  import opened Wrappers
  import opened Edit

  /** The item a full path of keys leads to. */
  function Lookup(entries: seq<Entry>, path: seq<string>): Option<Item>
    requires path != []
    decreases |path|
  {
    var found := Get(entries, path[0]);
    if |path| == 1 || found.None? then found
    else if found.value.Table? then Lookup(found.value.entries, path[1..])
    else None
  }

  lemma {:induction false} SetThenLookup(entries: seq<Entry>, inline_: bool, path: seq<string>, last: string, value: Item)
    requires Set(entries, inline_, path, last, value).Ok?
    ensures Lookup(Set(entries, inline_, path, last, value).value, path + [last]) == Some(value)
    decreases |path|
  {
    if path == [] {
      PutThenGet(entries, last, value);
    } else {
      var found := Get(entries, path[0]);
      var sub := if found.None? then Fresh(inline_) else found.value;
      SetThenLookup(sub.entries, sub.inline_, path[1..], last, value);
      PutThenGet(entries, path[0], sub.(entries := Set(sub.entries, sub.inline_, path[1..], last, value).value));
      assert (path + [last])[1..] == path[1..] + [last];
    }
  }

  /** Neither names a table holding the other. */
  predicate Unrelated(a: seq<string>, b: seq<string>) {
    !(a <= b) && !(b <= a)
  }

  lemma UnrelatedBelow(path: seq<string>, last: string, other: seq<string>)
    requires path != [] && other != [] && other[0] == path[0] && Unrelated(other, path + [last])
    ensures |other| > 1 && Unrelated(other[1..], path[1..] + [last])
  {
    var full := path + [last];
    assert full[1..] == path[1..] + [last];
    assert other == [other[0]] + other[1..] && full == [full[0]] + full[1..];
  }

  /** Setting a key leaves every other key as it was. */
  lemma {:induction false} SetTouchesNothingElse(entries: seq<Entry>, inline_: bool, path: seq<string>, last: string, value: Item,
                                                 other: seq<string>)
    requires Set(entries, inline_, path, last, value).Ok?
    requires other != [] && Unrelated(other, path + [last])
    ensures Lookup(Set(entries, inline_, path, last, value).value, other) == Lookup(entries, other)
    decreases |path|
  {
    if path == [] {
      PutThenGet(entries, last, value);
      assert other[0] == last ==> [last] <= other;
    } else {
      var found := Get(entries, path[0]);
      var sub := if found.None? then Fresh(inline_) else found.value;
      var inner := Set(sub.entries, sub.inline_, path[1..], last, value).value;
      PutThenGet(entries, path[0], sub.(entries := inner));
      if other[0] == path[0] {
        UnrelatedBelow(path, last, other);
        SetTouchesNothingElse(sub.entries, sub.inline_, path[1..], last, value, other[1..]);
      }
    }
  }

  /** No table on the way has a key twice. */
  ghost predicate DistinctAlong(entries: seq<Entry>, path: seq<string>)
    decreases |path|
  {
    && Distinct(entries)
    && (path != [] && Get(entries, path[0]).Some? && Get(entries, path[0]).value.Table? ==>
          DistinctAlong(Get(entries, path[0]).value.entries, path[1..]))
  }

  /** Unsetting one does too, whatever tables go with it. */
  lemma {:induction false} UnsetTouchesNothingElse(entries: seq<Entry>, path: seq<string>, last: string, other: seq<string>)
    requires Unset(entries, path, last).Ok? && DistinctAlong(entries, path)
    requires other != [] && Unrelated(other, path + [last])
    ensures Lookup(Unset(entries, path, last).value, other) == Lookup(entries, other)
    decreases |path|
  {
    if path == [] {
      DropThenGet(entries, last);
      assert other[0] == last ==> [last] <= other;
    } else {
      var sub := Get(entries, path[0]).value;
      PutThenGet(entries, path[0], sub.(entries := Unset(sub.entries, path[1..], last).value));
      DropThenGet(entries, path[0]);
      if other[0] == path[0] {
        UnrelatedBelow(path, last, other);
        UnsetTouchesNothingElse(sub.entries, path[1..], last, other[1..]);
      }
    }
  }

  /** And the key itself is gone. */
  lemma {:induction false} UnsetThenLookup(entries: seq<Entry>, path: seq<string>, last: string)
    requires Unset(entries, path, last).Ok? && DistinctAlong(entries, path)
    ensures Lookup(Unset(entries, path, last).value, path + [last]).None?
    decreases |path|
  {
    if path == [] {
      DropThenGet(entries, last);
    } else {
      UnsetDescends(entries, path, last);
      LookupDescends(Unset(entries, path, last).value, path, last);
      hide *;
      var sub := Get(entries, path[0]).value;
      PutThenGet(entries, path[0], sub.(entries := Unset(sub.entries, path[1..], last).value));
      DropThenGet(entries, path[0]);
      UnsetThenLookup(sub.entries, path[1..], last);
    }
  }

  lemma UnsetDescends(entries: seq<Entry>, path: seq<string>, last: string)
    requires Unset(entries, path, last).Ok? && DistinctAlong(entries, path) && path != []
    ensures Distinct(entries) && Get(entries, path[0]).Some? && Get(entries, path[0]).value.Table?
    ensures var sub := Get(entries, path[0]).value;
            && DistinctAlong(sub.entries, path[1..]) && Unset(sub.entries, path[1..], last).Ok?
            && var inner := Unset(sub.entries, path[1..], last).value;
               Unset(entries, path, last).value ==
               if inner == [] then Drop(entries, path[0]) else Put(entries, path[0], sub.(entries := inner))
  {
    hide Put, Drop, Get, Distinct;
  }

  lemma LookupDescends(entries: seq<Entry>, path: seq<string>, last: string)
    requires path != []
    ensures Lookup(entries, path + [last]) ==
            match Get(entries, path[0])
            case Some(Table(_, _, inner)) => Lookup(inner, path[1..] + [last])
            case _ => None
  {
    assert (path + [last])[1..] == path[1..] + [last];
    hide Get;
  }

  // ---------------------------------------------------------------- set, then unset

  /** Every table the path finds already there holds something. */
  predicate NoEmptyTableOn(entries: seq<Entry>, path: seq<string>)
    decreases |path|
  {
    path == [] ||
    match Get(entries, path[0])
    case Some(Table(_, _, inner)) => inner != [] && NoEmptyTableOn(inner, path[1..])
    case _ => true
  }

  /** Unsetting gives the document back exactly when no table on the way was empty. */
  lemma {:induction false} UnsetUndoesSetIff(entries: seq<Entry>, inline_: bool, path: seq<string>, last: string, value: Item)
    requires Set(entries, inline_, path, last, value).Ok? && Lookup(entries, path + [last]).None?
    ensures var back := Unset(Set(entries, inline_, path, last, value).value, path, last);
            && back.Ok?
            && (back.value == entries <==> NoEmptyTableOn(entries, path))
    decreases |path|
  {
    PutThenGetBack(entries, last, value);
    if path != [] {
      var found := Get(entries, path[0]);
      var sub := if found.None? then Fresh(inline_) else found.value;
      var inner := Set(sub.entries, sub.inline_, path[1..], last, value).value;
      assert (path + [last])[1..] == path[1..] + [last];
      NothingInNothing(path[1..] + [last]);
      UnsetUndoesSetIff(sub.entries, sub.inline_, path[1..], last, value);
      var left := Unset(inner, path[1..], last).value;
      PutThenGet(entries, path[0], sub.(entries := inner));
      PutTwice(entries, path[0], sub.(entries := inner), sub.(entries := left));
      TableComesBackIff(entries, path[0], sub, left);
    }
  }

  lemma PutThenGetBack(entries: seq<Entry>, key: string, item: Item)
    ensures Get(entries, key).None? ==> Drop(Put(entries, key, item), key) == entries
    ensures Get(Put(entries, key, item), key) == Some(item)
  {
    PutThenGet(entries, key, item);
    PutTwice(entries, key, item, item);
    DropThenGet(entries, key);
  }

  lemma NothingInNothing(path: seq<string>)
    requires path != []
    ensures Lookup([], path).None?
    ensures NoEmptyTableOn([], path)
  {
  }

  /** Whether a table written back, or dropped when left empty, is the one there was. */
  lemma TableComesBackIff(entries: seq<Entry>, key: string, sub: Item, left: seq<Entry>)
    requires sub.Table? && (Get(entries, key) == Some(sub) || (Get(entries, key).None? && sub.entries == []))
    ensures (if left == [] then Drop(entries, key) else Put(entries, key, sub.(entries := left))) == entries <==>
            left == sub.entries && (Get(entries, key).Some? ==> sub.entries != [])
  {
    PutThenGet(entries, key, sub.(entries := left));
    DropThenGet(entries, key);
    if Get(entries, key).Some? {
      PutBack(entries, key);
      assert |Drop(entries, key)| < |entries|;
    }
  }

  /** Setting a key back to what it was undoes any setting of it. */
  lemma {:induction false} SetBackUndoesSet(entries: seq<Entry>, inline_: bool, path: seq<string>, last: string, value: Item)
    requires Set(entries, inline_, path, last, value).Ok? && Lookup(entries, path + [last]).Some?
    ensures Set(Set(entries, inline_, path, last, value).value, inline_, path, last, Lookup(entries, path + [last]).value)
            == Ok(entries)
    decreases |path|
  {
    if path == [] {
      PutTwice(entries, last, value, Get(entries, last).value);
      PutBack(entries, last);
    } else {
      var sub := Get(entries, path[0]).value;
      assert (path + [last])[1..] == path[1..] + [last];
      SetBackUndoesSet(sub.entries, sub.inline_, path[1..], last, value);
      var inner := Set(sub.entries, sub.inline_, path[1..], last, value).value;
      PutThenGet(entries, path[0], sub.(entries := inner));
      PutTwice(entries, path[0], sub.(entries := inner), sub);
      PutBack(entries, path[0]);
    }
  }

  // ---------------------------------------------------------------- by dotted key

  /** `config unset` after `config set` of a key that was not there. */
  lemma UnsetKeyUndoesSetKeyIff(root: seq<Entry>, key: string, value: Item)
    requires AfterSetKey(root, key, value).Ok? && Lookup(root, Split(key)).None?
    ensures var back := AfterUnsetKey(AfterSetKey(root, key, value).value, key);
            && back.Ok?
            && (back.value == root <==> NoEmptyTableOn(root, Split(key)[..|Split(key)| - 1]))
  {
    var s := Split(key);
    assert s == s[..|s| - 1] + [s[|s| - 1]];
    UnsetUndoesSetIff(root, false, s[..|s| - 1], s[|s| - 1], value);
  }

  lemma {:induction false} JoinUndoesSplit(key: string)
    ensures Split(key) != [] && Join(Split(key)) == key
    ensures forall i :: 0 <= i < |Split(key)| ==> '.' !in Split(key)[i]
  {
    if key != [] {
      JoinUndoesSplit(key[1..]);
      var rest := Split(key[1..]);
      if key[0] == '.' {
        assert Split(key)[1..] == rest;
      } else {
        assert Split(key)[1..] == rest[1..];
        if |rest| > 1 {
          assert [key[0]] + (rest[0] + "." + Join(rest[1..])) == ([key[0]] + rest[0]) + "." + Join(rest[1..]);
        }
      }
    }
  }

  function Join(segments: seq<string>): string {
    if segments == [] then ""
    else if |segments| == 1 then segments[0]
    else segments[0] + "." + Join(segments[1..])
  }

  // ---------------------------------------------------------------- what is created, and what is refused

  /** The tables a path makes where there is nothing: each spelled as the one it
      stands in, a section without a header of its own unless inline. */
  function Chain(inline_: bool, path: seq<string>, last: string, value: Item): Item {
    Table(inline_, !inline_, [if path == [] then Entry(last, value) else Entry(path[0], Chain(inline_, path[1..], last, value))])
  }

  lemma {:induction false} SetIntoNothing(inline_: bool, path: seq<string>, last: string, value: Item)
    ensures Set([], inline_, path, last, value) == Ok(Chain(inline_, path, last, value).entries)
    decreases |path|
  {
    assert Find([], if path == [] then last else path[0]).None?;
    if path != [] {
      SetIntoNothing(inline_, path[1..], last, value);
      var inner := Chain(inline_, path[1..], last, value);
      assert inner == Table(inline_, !inline_, inner.entries) && Fresh(inline_) == Table(inline_, !inline_, []);
      assert Put([], path[0], inner) == [Entry(path[0], inner)];
    } else {
      assert Put([], last, value) == [Entry(last, value)];
    }
  }

  /** Setting below a key that is not there creates its tables and nothing more. */
  lemma SetCreates(entries: seq<Entry>, inline_: bool, path: seq<string>, last: string, value: Item)
    requires path != [] && Get(entries, path[0]).None?
    ensures Set(entries, inline_, path, last, value)
            == Ok(entries + [Entry(path[0], Chain(inline_, path[1..], last, value))])
  {
    SetIntoNothing(inline_, path[1..], last, value);
    assert Find(entries, path[0]).None?;
  }

  lemma {:induction false} SplitOfTwo(first: string, second: string)
    ensures Split(first + "." + second) == Split(first) + Split(second)
    decreases |first|
  {
    hide *;
    var key := first + "." + second;
    if first == "" {
      assert key[0] == '.' && key[1..] == second;
      SplitFirst(key);
      SplitOfNothing();
    } else {
      SplitOfTwo(first[1..], second);
      assert key[0] == first[0] && key[1..] == first[1..] + "." + second;
      JoinUndoesSplit(first[1..]);
      SplitFirst(first);
      SplitFirst(key);
      var rest := Split(first[1..]);
      assert (rest + Split(second))[0] == rest[0] && (rest + Split(second))[1..] == rest[1..] + Split(second);
      assert [""] + (rest + Split(second)) == ([""] + rest) + Split(second);
      var begun := [[first[0]] + rest[0]];
      assert begun + (rest[1..] + Split(second)) == (begun + rest[1..]) + Split(second);
    }
  }

  lemma SplitOfNothing()
    ensures Split("") == [""]
  {
  }

  lemma SplitFirst(key: string)
    requires key != ""
    ensures var rest := Split(key[1..]);
            Split(key) == if key[0] == '.' then [""] + rest
                          else if rest == [] then [[key[0]]] else [[key[0]] + rest[0]] + rest[1..]
  {
  }

  lemma {:induction false} JoinOfTwo(first: seq<string>, second: seq<string>)
    requires first != [] && second != []
    ensures Join(first + second) == Join(first) + "." + Join(second)
    decreases |first|
  {
    if |first| == 1 {
      assert (first + second)[1..] == second && (first + second)[0] == first[0];
    } else {
      JoinOfTwo(first[1..], second);
      assert (first + second)[1..] == first[1..] + second && (first + second)[0] == first[0];
      assert first[0] + "." + (Join(first[1..]) + "." + Join(second)) == (first[0] + "." + Join(first[1..])) + "." + Join(second);
    }
  }

  /** A key is under a verb's name exactly when its segments begin with the name's. */
  lemma UnderVerbIff(key: string, name: string)
    ensures UnderVerb(key, name) <==> Split(name) <= Split(key)
  {
    hide Split, Join;
    if UnderVerb(key, name) {
      SplitUnder(key, name);
    }
    if Split(name) <= Split(key) {
      UnderSplit(key, name);
    }
  }

  lemma SplitUnder(key: string, name: string)
    requires UnderVerb(key, name)
    ensures Split(name) <= Split(key)
  {
    hide Split;
    if name + "." <= key {
      var rest := key[|name| + 1..];
      assert key == name + "." + rest;
      SplitOfTwo(name, rest);
    }
  }

  lemma UnderSplit(key: string, name: string)
    requires Split(name) <= Split(key)
    ensures UnderVerb(key, name)
  {
    JoinUndoesSplit(key);
    JoinUndoesSplit(name);
    hide Split, Join;
    var rest := Split(key)[|Split(name)|..];
    assert Split(key) == Split(name) + rest;
    if |Split(key)| == |Split(name)| {
      assert Split(key) == Split(name);
    } else {
      JoinOfTwo(Split(name), rest);
      assert key == name + "." + Join(rest);
    }
  }

  /** The keys left to the verbs for routes and priorities: those whose first two
      segments name one of the two arrays. */
  lemma TableArrayKeyIff(key: string)
    ensures TableArrayKey(key) <==>
            var s := Split(key);
            |s| >= 2 && s[0] == "selection" && s[1] in {"routes", "priorities"}
  {
    TableArrayNames();
    hide *;
    UnderVerbIff(key, "selection.routes");
    UnderVerbIff(key, "selection.priorities");
    TableArrayKeyMeans(key);
    TwoBegin(Split(key), "selection", "routes");
    TwoBegin(Split(key), "selection", "priorities");
  }

  lemma TableArrayKeyMeans(key: string)
    ensures TableArrayKey(key) <==> UnderVerb(key, "selection.routes") || UnderVerb(key, "selection.priorities")
  {
  }

  lemma TableArrayNames()
    ensures Split("selection.routes") == ["selection"] + ["routes"]
    ensures Split("selection.priorities") == ["selection"] + ["priorities"]
  {
    hide Split;
    PlainSplit("selection");
    PlainSplit("routes");
    PlainSplit("priorities");
    SplitOfTwo("selection", "routes");
    SplitOfTwo("selection", "priorities");
    assert "selection" + "." + "routes" == "selection.routes";
    assert "selection" + "." + "priorities" == "selection.priorities";
  }

  lemma TwoBegin(s: seq<string>, a: string, b: string)
    ensures [a] + [b] <= s <==> |s| >= 2 && s[0] == a && s[1] == b
  {
    if |s| >= 2 {
      assert s[..2] == [s[0], s[1]];
    }
  }

  lemma {:induction false} PlainSplit(name: string)
    requires '.' !in name
    ensures Split(name) == [name]
  {
    if name != "" {
      PlainSplit(name[1..]);
      assert [name[0]] + name[1..] == name;
    }
  }

  /** A key is refused as usage exactly when it is left to those verbs or has an
      empty segment. */
  lemma RefusedAsUsageIff(root: seq<Entry>, key: string, value: Item)
    ensures AfterSetKey(root, key, value) == Err(Usage) <==> TableArrayKey(key) || "" in Split(key)
    ensures AfterUnsetKey(root, key) == Err(Usage) <==> TableArrayKey(key) || "" in Split(key)
  {
    JoinUndoesSplit(key);
    var s := Split(key);
    SetNeverUsage(root, false, s[..|s| - 1], s[|s| - 1], value);
    UnsetNeverUsage(root, s[..|s| - 1], s[|s| - 1]);
    hide Split, TableArrayKey, Set, Unset;
  }

  lemma {:induction false} SetNeverUsage(entries: seq<Entry>, inline_: bool, path: seq<string>, last: string, value: Item)
    ensures Set(entries, inline_, path, last, value) != Err(Usage)
    decreases |path|
  {
    if path != [] {
      var found := Get(entries, path[0]);
      var sub := if found.None? then Fresh(inline_) else found.value;
      if sub.Table? {
        SetNeverUsage(sub.entries, sub.inline_, path[1..], last, value);
      }
    }
  }

  lemma {:induction false} UnsetNeverUsage(entries: seq<Entry>, path: seq<string>, last: string)
    ensures Unset(entries, path, last) != Err(Usage)
    decreases |path|
  {
    if path != [] && Get(entries, path[0]).Some? && Get(entries, path[0]).value.Table? {
      UnsetNeverUsage(Get(entries, path[0]).value.entries, path[1..], last);
    }
  }

  // ---------------------------------------------------------------- why an edit is refused

  /** Something on the way is there and is no table. */
  ghost predicate Blocked(entries: seq<Entry>, path: seq<string>) {
    exists n :: 0 < n <= |path| && Lookup(entries, path[..n]).Some? && !Lookup(entries, path[..n]).value.Table?
  }

  lemma LookupOfOne(entries: seq<Entry>, path: seq<string>)
    requires path != []
    ensures Lookup(entries, path[..1]) == Get(entries, path[0])
  {
  }

  lemma LookupBelow(entries: seq<Entry>, path: seq<string>, n: nat)
    requires 1 < n <= |path|
    ensures Lookup(entries, path[..n]) ==
            match Get(entries, path[0])
            case Some(Table(_, _, inner)) => Lookup(inner, path[1..][..n - 1])
            case _ => None
  {
    assert path[..n][1..] == path[1..][..n - 1];
  }

  lemma BlockedBelow(entries: seq<Entry>, path: seq<string>)
    requires path != []
    ensures Blocked(entries, path) <==>
            match Get(entries, path[0])
            case None => false
            case Some(Table(_, _, inner)) => Blocked(inner, path[1..])
            case Some(_) => true
  {
    LookupOfOne(entries, path);
    var found := Get(entries, path[0]);
    if found.Some? && found.value.Table? && Blocked(found.value.entries, path[1..]) {
      var n :| 0 < n <= |path[1..]| && Lookup(found.value.entries, path[1..][..n]).Some?
        && !Lookup(found.value.entries, path[1..][..n]).value.Table?;
      LookupBelow(entries, path, n + 1);
      assert Lookup(entries, path[..n + 1]).Some?;
    }
    if Blocked(entries, path) {
      var n :| 0 < n <= |path| && Lookup(entries, path[..n]).Some? && !Lookup(entries, path[..n]).value.Table?;
      if n > 1 {
        LookupBelow(entries, path, n);
        assert Lookup(found.value.entries, path[1..][..n - 1]).Some?;
      }
    }
  }

  /** Setting is refused exactly when something on the way is no table. */
  lemma {:induction false} SetRefusedIff(entries: seq<Entry>, inline_: bool, path: seq<string>, last: string, value: Item)
    ensures var r := Set(entries, inline_, path, last, value);
            (r == Err(NotATable) <==> Blocked(entries, path)) && (r.Ok? <==> !Blocked(entries, path))
    decreases |path|
  {
    if path != [] {
      BlockedBelow(entries, path);
      var found := Get(entries, path[0]);
      if found.None? {
        SetIntoNothing(inline_, path[1..], last, value);
      } else if found.value.Table? {
        SetRefusedIff(found.value.entries, found.value.inline_, path[1..], last, value);
      }
      hide Blocked, Get, Put;
    }
  }

  /** Unsetting is refused exactly when the key leads nowhere, and for the same
      reason when something on the way is no table. */
  lemma {:induction false} UnsetRefusedIff(entries: seq<Entry>, path: seq<string>, last: string)
    ensures var r := Unset(entries, path, last);
            && (r.Ok? <==> Lookup(entries, path + [last]).Some?)
            && (r == Err(NotATable) <==> Blocked(entries, path))
            && (r == Err(NotFound) <==> Lookup(entries, path + [last]).None? && !Blocked(entries, path))
    decreases |path|
  {
    if path != [] {
      BlockedBelow(entries, path);
      LookupDescends(entries, path, last);
      var found := Get(entries, path[0]);
      if found.Some? && found.value.Table? {
        UnsetRefusedIff(found.value.entries, path[1..], last);
      }
      hide Blocked, Get, Put, Drop, Lookup;
    }
  }
}

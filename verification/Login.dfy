/** The browser login: what a paste means, the table of operations as the
    server's calls change it, and every interleaving of those calls with the
    drivers that run the flows. */
module Login {
  import opened Wrappers
  import Registry

  // ---------------------------------------------------------------- a paste

  datatype Paste = Code(code: string) | RefusedPaste | Other

  /** The text before and after the first `c`. */
  function SplitOnce(s: string, c: char): (r: Option<(string, string)>)
    ensures r.Some? ==> s == r.value.0 + [c] + r.value.1 && c !in r.value.0
    ensures r.None? <==> c !in s
  {
    if s == "" then None
    else if s[0] == c then Some(("", s[1..]))
    else
      match SplitOnce(s[1..], c)
      case None => None
      case Some((before, after)) => Some(([s[0]] + before, after))
  }

  predicate ContainsScheme(s: string) {
    exists i :: 0 <= i < |s| - 2 && s[i] == ':' && s[i + 1] == '/' && s[i + 2] == '/'
  }

  /** A full callback URL is reduced to its query; a bare code has none. */
  function QueryOf(text: string): Option<string> {
    var split := SplitOnce(text, '?');
    if split.Some? && (ContainsScheme(text) || '=' in split.value.1) then Some(split.value.1)
    else if '=' in text then Some(text)
    else None
  }

  function Pairs(query: string): seq<string>
    decreases |query|
  {
    match SplitOnce(query, '&')
    case None => [query]
    case Some((first, rest)) => [first] + Pairs(rest)
  }

  type Decoder = string -> string

  /** The key and value of a pair that has an `=`. */
  function KeyValue(pair: string, decode: Decoder): Option<(string, string)> {
    match SplitOnce(pair, '=')
    case None => None
    case Some((key, value)) => Some((decode(key), decode(value)))
  }

  predicate Says(pair: string, decode: Decoder, key: string) {
    KeyValue(pair, decode).Some? && KeyValue(pair, decode).value.0 == key
  }

  /** The value of the last pair with this key. */
  function LastValue(pairs: seq<string>, decode: Decoder, key: string): Option<string> {
    if pairs == [] then None
    else
      var last := pairs[|pairs| - 1];
      if Says(last, decode, key) then Some(KeyValue(last, decode).value.1)
      else LastValue(pairs[..|pairs| - 1], decode, key)
  }

  lemma {:induction false} LastValueIsSaid(pairs: seq<string>, decode: Decoder, key: string)
    ensures LastValue(pairs, decode, key).Some? <==> exists i :: 0 <= i < |pairs| && Says(pairs[i], decode, key)
  {
    if pairs != [] {
      var front, last := pairs[..|pairs| - 1], pairs[|pairs| - 1];
      LastValueIsSaid(front, decode, key);
      assert forall i :: 0 <= i < |front| ==> front[i] == pairs[i];
      if exists i :: 0 <= i < |front| && Says(front[i], decode, key) {
        var i :| 0 <= i < |front| && Says(front[i], decode, key);
        assert Says(pairs[i], decode, key);
      }
    }
  }

  lemma LastValueStep(pairs: seq<string>, decode: Decoder, i: nat, key: string)
    requires i < |pairs|
    ensures LastValue(pairs[..i + 1], decode, key) ==
            if Says(pairs[i], decode, key) then Some(KeyValue(pairs[i], decode).value.1)
            else LastValue(pairs[..i], decode, key)
  {
    assert pairs[..i + 1][..i] == pairs[..i] && pairs[..i + 1][i] == pairs[i];
  }

  function PasteOf(paste: string, expectedState: string, decode: Decoder): Paste {
    var text := Registry.Trim(paste);
    if text == "" then Other
    else
      match QueryOf(text)
      case None => Code(text)
      case Some(query) =>
        var pairs := Pairs(query);
        var code, state := LastValue(pairs, decode, "code"), LastValue(pairs, decode, "state");
        if LastValue(pairs, decode, "error").Some? || code.None? then RefusedPaste
        else if state.Some? && state.value != expectedState then RefusedPaste
        else Code(code.value)
  }

  /** A code is taken from a bare paste, or from a callback that reports no
      error and carries no state but this login's own. */
  method ParsePaste(paste: string, expectedState: string, decode: Decoder) returns (r: Paste)
    ensures r == PasteOf(paste, expectedState, decode)
  {
    var text := Registry.Trim(paste);
    if text == "" {
      return Other;
    }
    var query := QueryOf(text);
    if query.None? {
      return Code(text);
    }
    var pairs := Pairs(query.value);
    var code, state: Option<string> := None, None;
    for i := 0 to |pairs|
      invariant LastValue(pairs[..i], decode, "error").None?
      invariant code == LastValue(pairs[..i], decode, "code") && state == LastValue(pairs[..i], decode, "state")
    {
      LastValueStep(pairs, decode, i, "code");
      LastValueStep(pairs, decode, i, "state");
      LastValueStep(pairs, decode, i, "error");
      var kv := KeyValue(pairs[i], decode);
      if kv.Some? {
        if kv.value.0 == "code" {
          code := Some(kv.value.1);
        } else if kv.value.0 == "state" {
          state := Some(kv.value.1);
        } else if kv.value.0 == "error" {
          LastValueIsSaid(pairs, decode, "error");
          assert Says(pairs[i], decode, "error");
          return RefusedPaste;
        }
      }
    }
    assert pairs[..|pairs|] == pairs;
    if code.None? || (state.Some? && state.value != expectedState) {
      return RefusedPaste;
    }
    return Code(code.value);
  }

  /** A callback carrying another login's state is refused, wherever the state
      stands in it, unless a later pair carries this login's. */
  lemma ForeignStateIsRefused(paste: string, expectedState: string, decode: Decoder, i: nat)
    requires QueryOf(Registry.Trim(paste)).Some? && Registry.Trim(paste) != ""
    requires var pairs := Pairs(QueryOf(Registry.Trim(paste)).value);
             && i < |pairs| && Says(pairs[i], decode, "state") && KeyValue(pairs[i], decode).value.1 != expectedState
             && forall j :: i < j < |pairs| ==> !Says(pairs[j], decode, "state")
    ensures PasteOf(paste, expectedState, decode) == RefusedPaste
  {
    LastSaidIsLast(Pairs(QueryOf(Registry.Trim(paste)).value), decode, i, "state");
  }

  lemma {:induction false} LastSaidIsLast(pairs: seq<string>, decode: Decoder, i: nat, key: string)
    requires i < |pairs| && Says(pairs[i], decode, key) && forall j :: i < j < |pairs| ==> !Says(pairs[j], decode, key)
    ensures LastValue(pairs, decode, key) == Some(KeyValue(pairs[i], decode).value.1)
  {
    if i < |pairs| - 1 {
      LastSaidIsLast(pairs[..|pairs| - 1], decode, i, key);
    }
  }

  /** The last pair with this key gives it this value. */
  ghost predicate LastGives(pairs: seq<string>, decode: Decoder, key: string, value: string) {
    exists i :: 0 <= i < |pairs| && Says(pairs[i], decode, key) && KeyValue(pairs[i], decode).value.1 == value
      && forall j :: i < j < |pairs| ==> !Says(pairs[j], decode, key)
  }

  ghost predicate SaysAnywhere(pairs: seq<string>, decode: Decoder, key: string) {
    exists i :: 0 <= i < |pairs| && Says(pairs[i], decode, key)
  }

  lemma {:induction false} LastGivesIff(pairs: seq<string>, decode: Decoder, key: string, value: string)
    ensures LastValue(pairs, decode, key) == Some(value) <==> LastGives(pairs, decode, key, value)
  {
    if LastGives(pairs, decode, key, value) {
      var i :| 0 <= i < |pairs| && Says(pairs[i], decode, key) && KeyValue(pairs[i], decode).value.1 == value
        && forall j :: i < j < |pairs| ==> !Says(pairs[j], decode, key);
      LastSaidIsLast(pairs, decode, i, key);
    } else if LastValue(pairs, decode, key) == Some(value) {
      var i := LastSaid(pairs, decode, key);
      assert LastGives(pairs, decode, key, value);
    }
  }

  lemma {:induction false} LastSaid(pairs: seq<string>, decode: Decoder, key: string) returns (i: nat)
    requires LastValue(pairs, decode, key).Some?
    ensures i < |pairs| && Says(pairs[i], decode, key)
    ensures KeyValue(pairs[i], decode).value.1 == LastValue(pairs, decode, key).value
    ensures forall j :: i < j < |pairs| ==> !Says(pairs[j], decode, key)
  {
    var n := |pairs| - 1;
    if Says(pairs[n], decode, key) {
      i := n;
    } else {
      i := LastSaid(pairs[..n], decode, key);
    }
  }

  /** Which code a paste gives: all of a bare one, and of a callback the last
      `code` there is, when it reports no error and its last `state`, if it has
      one, is this login's. */
  lemma CodeIff(paste: string, expectedState: string, decode: Decoder, code: string)
    ensures var text := Registry.Trim(paste);
            PasteOf(paste, expectedState, decode) == Code(code) <==>
            && text != ""
            && match QueryOf(text)
               case None => code == text
               case Some(query) =>
                 var pairs := Pairs(query);
                 && LastGives(pairs, decode, "code", code)
                 && !SaysAnywhere(pairs, decode, "error")
                 && (SaysAnywhere(pairs, decode, "state") ==> LastGives(pairs, decode, "state", expectedState))
  {
    var text := Registry.Trim(paste);
    if text != "" && QueryOf(text).Some? {
      var pairs := Pairs(QueryOf(text).value);
      LastGivesIff(pairs, decode, "code", code);
      LastGivesIff(pairs, decode, "state", expectedState);
      LastValueIsSaid(pairs, decode, "error");
      LastValueIsSaid(pairs, decode, "state");
      hide LastValue, LastGives, Says, QueryOf, Pairs, Registry.Trim;
    }
  }

  function JoinedPairs(pairs: seq<string>): string {
    if pairs == [] then "" else if |pairs| == 1 then pairs[0] else pairs[0] + ['&'] + JoinedPairs(pairs[1..])
  }

  /** The pairs are the query cut at every `&`. */
  lemma {:induction false} PairsAreTheQuery(query: string)
    ensures Pairs(query) != [] && JoinedPairs(Pairs(query)) == query
    ensures forall i :: 0 <= i < |Pairs(query)| ==> '&' !in Pairs(query)[i]
    decreases |query|
  {
    var split := SplitOnce(query, '&');
    if split.Some? {
      PairsAreTheQuery(split.value.1);
      assert Pairs(query) == [split.value.0] + Pairs(split.value.1);
      assert Pairs(query)[1..] == Pairs(split.value.1);
    }
  }

  /** A callback URL is reduced to what follows its first question mark; a text
      with an equals sign and none is a query; any other is a code. */
  lemma QueryOfIs(text: string, base: string, query: string)
    ensures text == base + ['?'] + query && '?' !in base && ('=' in query || ContainsScheme(text)) ==> QueryOf(text) == Some(query)
    ensures '?' !in text && '=' in text ==> QueryOf(text) == Some(text)
    ensures '=' !in text && !ContainsScheme(text) ==> QueryOf(text) == None
  {
    if text == base + ['?'] + query && '?' !in base {
      SplitsThere(base, query, '?');
    }
    var split := SplitOnce(text, '?');
    assert split.Some? && '=' in split.value.1 ==> '=' in text;
  }

  lemma {:induction false} SplitsThere(before: string, after: string, c: char)
    requires c !in before
    ensures SplitOnce(before + [c] + after, c) == Some((before, after))
  {
    var s := before + [c] + after;
    if before == "" {
      assert s[0] == c && s[1..] == after;
    } else {
      assert s[1..] == before[1..] + [c] + after && s[0] == before[0];
      SplitsThere(before[1..], after, c);
      assert [before[0]] + before[1..] == before;
    }
  }

  /** A pair is cut at its first equals sign, and both sides are decoded. */
  lemma PairIsCut(key: string, value: string, decode: Decoder)
    requires '=' !in key
    ensures KeyValue(key + ['='] + value, decode) == Some((decode(key), decode(value)))
  {
    SplitsThere(key, value, '=');
  }

  lemma SchemeIsContained(s: string, i: nat) returns (at: nat)
    ensures i + 3 <= |s| && s[i..i + 3] == "://" ==> ContainsScheme(s)
    ensures ContainsScheme(s) ==> at + 3 <= |s| && s[at..at + 3] == "://"
  {
    at := 0;
    if i + 3 <= |s| && s[i..i + 3] == "://" {
      assert s[i..i + 3][0] == s[i] && s[i..i + 3][1] == s[i + 1] && s[i..i + 3][2] == s[i + 2];
    }
    if ContainsScheme(s) {
      var j :| 0 <= j < |s| - 2 && s[j] == ':' && s[j + 1] == '/' && s[j + 2] == '/';
      assert s[j..j + 3] == "://";
      at := j;
    }
  }

  // ---------------------------------------------------------------- the table of operations

  type Id(==, !new)
  type Handle(==, !new)

  datatype OpState = Awaiting | Exchanging | Succeeded | Failed | Cancelled

  datatype Event = Submitted(paste: string) | Cancel

  datatype Operation = Operation(
    expiresAt: int,
    owner: Option<string>,
    state: OpState,
    endedAt: Option<int>,
    account: Option<Handle>,
    events: seq<Event>)

  type Table = map<Id, Operation>

  datatype Refused = Unknown | Conflict

  const RETENTION := 3600

  function AfterSend(table: Table, id: Id, event: Event): (Table, Result<(), Refused>) {
    if id !in table then (table, Err(Unknown))
    else if !table[id].state.Awaiting? then (table, Err(Conflict))
    else (table[id := table[id].(events := table[id].events + [event])], Ok(()))
  }

  function AfterSetState(table: Table, id: Id, state: OpState): Table {
    if id in table then table[id := table[id].(state := state)] else table
  }

  function AfterFinish(table: Table, id: Id, state: OpState, account: Option<Handle>, now: int): Table {
    if id in table then table[id := table[id].(state := state, endedAt := Some(now), account := account)] else table
  }

  predicate Remembered(o: Operation, now: int) {
    o.endedAt.None? || o.endedAt.value > now - RETENTION
  }

  function AfterSweep(table: Table, now: int): Table {
    map id | id in table && Remembered(table[id], now) :: table[id]
  }

  class Logins {
    var operations: Table

    constructor ()
      ensures operations == map[]
    {
      operations := map[];
    }

    method Start(id: Id, expiresAt: int, owner: Option<string>, now: int)
      requires id !in operations
      modifies this
      ensures operations == AfterSweep(old(operations), now)[id := Operation(expiresAt, owner, Awaiting, None, None, [])]
    {
      Sweep(now);
      operations := operations[id := Operation(expiresAt, owner, Awaiting, None, None, [])];
    }

    method Submit(id: Id, paste: string) returns (r: Result<(), Refused>)
      modifies this
      ensures (operations, r) == AfterSend(old(operations), id, Submitted(paste))
      ensures r == Err(Unknown) <==> id !in old(operations)
      ensures r == Err(Conflict) <==> id in old(operations) && !old(operations)[id].state.Awaiting?
    {
      r := Send(id, Submitted(paste));
    }

    method CancelLogin(id: Id) returns (r: Result<(), Refused>)
      modifies this
      ensures (operations, r) == AfterSend(old(operations), id, Cancel)
      ensures r == Err(Unknown) <==> id !in old(operations)
      ensures r == Err(Conflict) <==> id in old(operations) && !old(operations)[id].state.Awaiting?
    {
      r := Send(id, Cancel);
    }

    method Send(id: Id, event: Event) returns (r: Result<(), Refused>)
      modifies this
      ensures (operations, r) == AfterSend(old(operations), id, event)
      ensures r == Err(Unknown) <==> id !in old(operations)
      ensures r == Err(Conflict) <==> id in old(operations) && !old(operations)[id].state.Awaiting?
    {
      if id !in operations {
        return Err(Unknown);
      }
      var operation := operations[id];
      if !operation.state.Awaiting? {
        return Err(Conflict);
      }
      operations := operations[id := operation.(events := operation.events + [event])];
      return Ok(());
    }

    method SetState(id: Id, state: OpState)
      modifies this
      ensures operations == AfterSetState(old(operations), id, state)
    {
      if id in operations {
        operations := operations[id := operations[id].(state := state)];
      }
    }

    method Finish(id: Id, state: OpState, account: Option<Handle>, now: int)
      modifies this
      ensures operations == AfterFinish(old(operations), id, state, account, now)
    {
      if id in operations {
        operations := operations[id := operations[id].(state := state, endedAt := Some(now), account := account)];
      }
    }

    method Sweep(now: int)
      modifies this
      ensures operations == AfterSweep(old(operations), now)
    {
      var left := operations.Keys;
      var kept: Table := map[];
      while left != {}
        invariant operations == old(operations) && left <= operations.Keys
        invariant forall id :: id in kept <==> id in operations && id !in left && Remembered(operations[id], now)
        invariant forall id :: id in kept ==> kept[id] == operations[id]
        decreases |left|
      {
        var id :| id in left;
        if Remembered(operations[id], now) {
          kept := kept[id := operations[id]];
        }
        left := left - {id};
      }
      operations := kept;
    }
  }
}

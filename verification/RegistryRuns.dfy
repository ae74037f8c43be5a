/** Any run of registry operations from the empty registry, beside the full
    record of what was disclosed: one verifier slot per entry answers every
    authentication and every claim as that record would. */
module RegistryRuns {
  import opened Wrappers
  import opened Secret
  import opened Registry

  /** An operation, and the token drawn for it when it generates one. */
  datatype Call =
    | Issue(id: string, name: string, now: int, lifetime: nat, token: string)
    | Reissue(id: string, now: int, lifetime: nat, token: string)
    | Claim(id: string, code: string, now: int, token: string)
    | Rotate(id: string, token: string)
    | Revoke(id: string, now: int)
    | Rename(id: string, name: string)
    | SetNoAccount(id: string, noAccount: bool)
    | Provision(now: int, token: string)
    | RemoveOperator

  predicate Draws(c: Call) {
    c.Issue? || c.Reissue? || c.Claim? || c.Rotate? || c.Provision?
  }

  /** What a successful operation disclosed or ended. `again` marks a reissue,
      `code` the enrollment code a claim consumed. */
  datatype Note =
    | CodeGiven(id: string, code: string, deadline: int, again: bool)
    | SecretGiven(id: string, consumed: Option<string>, secret: string)
    | Killed(id: string)
    | OperatorGiven(operatorSecret: string)
    | OperatorGone

  predicate About(n: Note, id: string) {
    !n.OperatorGiven? && !n.OperatorGone? && n.id == id
  }

  function Noted(r: Registry, n: Note): (Registry, Option<Note>) {
    (r, Some(n))
  }

  function Perform(h: Hash, r: Registry, c: Call): (Registry, Option<Note>) {
    match c
    case Issue(id, name, now, lifetime, token) => (
      match AfterIssue(h, r, id, name, now, lifetime, token)
      case Ok((after, deadline)) => Noted(after, CodeGiven(id, token, deadline, false))
      case Err(_) => (r, None))
    case Reissue(id, now, lifetime, token) => (
      match AfterReissue(h, r, id, now, lifetime, token)
      case Ok((after, deadline)) => Noted(after, CodeGiven(id, token, deadline, true))
      case Err(_) => (r, None))
    case Claim(id, code, now, token) => (
      match AfterClaim(h, r, id, code, now, token)
      case Ok((after, _)) => Noted(after, SecretGiven(id, Some(code), token))
      case Err(_) => (r, None))
    case Rotate(id, token) => (
      match AfterRotate(h, r, id, token)
      case Ok(after) => Noted(after, SecretGiven(id, None, token))
      case Err(_) => (r, None))
    case Revoke(id, now) => (
      match AfterRevoke(r, id, now)
      case Ok(after) => Noted(after, Killed(id))
      case Err(_) => (r, None))
    case Rename(id, name) => (
      match AfterRename(r, id, name)
      case Ok(after) => (after, None)
      case Err(_) => (r, None))
    case SetNoAccount(id, noAccount) => (AfterSetNoAccount(r, id, noAccount), None)
    case Provision(now, token) => Noted(AfterProvision(h, r, now, token), OperatorGiven(token))
    case RemoveOperator => Noted(r.(operator := None), OperatorGone)
  }

  datatype Outcome = Outcome(registry: Registry, notes: seq<Note>)

  function Run(h: Hash, calls: seq<Call>): Outcome {
    if calls == [] then Outcome(EMPTY, [])
    else
      var before := Run(h, calls[..|calls| - 1]);
      var (after, note) := Perform(h, before.registry, calls[|calls| - 1]);
      Outcome(after, if note.Some? then before.notes + [note.value] else before.notes)
  }

  /** Randomness never repeats: no two operations draw the same token. */
  ghost predicate Fresh(calls: seq<Call>) {
    forall i, j :: 0 <= i < j < |calls| && Draws(calls[i]) && Draws(calls[j]) ==> calls[i].token != calls[j].token
  }

  // ---------------------------------------------------------------- reading the record

  /** The newest note about this id. */
  function LastAbout(notes: seq<Note>, id: string): (k: Option<nat>)
    ensures k.Some? ==> k.value < |notes| && About(notes[k.value], id)
    ensures k.Some? ==> forall i :: k.value < i < |notes| ==> !About(notes[i], id)
    ensures k.None? <==> forall i :: 0 <= i < |notes| ==> !About(notes[i], id)
  {
    if notes == [] then None
    else if About(notes[|notes| - 1], id) then Some(|notes| - 1)
    else
      assert forall i :: 0 <= i < |notes| - 1 ==> notes[i] == notes[..|notes| - 1][i];
      LastAbout(notes[..|notes| - 1], id)
  }

  /** The secret disclosed last for this id, unless a reissue or a revocation followed. */
  function CurrentSecret(notes: seq<Note>, id: string): Option<string> {
    match LastAbout(notes, id)
    case None => None
    case Some(k) => if notes[k].SecretGiven? then Some(notes[k].secret) else None
  }

  /** The code issued last for this id and its deadline, unless it was
      consumed, rotated past or revoked. */
  function CurrentCode(notes: seq<Note>, id: string): Option<(string, int)> {
    match LastAbout(notes, id)
    case None => None
    case Some(k) => if notes[k].CodeGiven? then Some((notes[k].code, notes[k].deadline)) else None
  }

  predicate AboutOperator(n: Note) {
    n.OperatorGiven? || n.OperatorGone?
  }

  function CurrentOperator(notes: seq<Note>): Option<string> {
    if notes == [] then None
    else
      var n := notes[|notes| - 1];
      if n.OperatorGiven? then Some(n.operatorSecret)
      else if n.OperatorGone? then None
      else CurrentOperator(notes[..|notes| - 1])
  }

  predicate Advances(n: Note, id: string) {
    About(n, id) && ((n.CodeGiven? && n.again) || (n.SecretGiven? && n.consumed.None?))
  }

  /** Reissues and rotations recorded for this id. */
  function AdvanceCount(notes: seq<Note>, id: string): nat {
    if notes == [] then 0
    else AdvanceCount(notes[..|notes| - 1], id) + if Advances(notes[|notes| - 1], id) then 1 else 0
  }

  // ---------------------------------------------------------------- the entry and the record agree

  /** The fields of an entry say exactly what its newest note says. */
  ghost predicate Agrees(h: Hash, e: Entry, n: Note) {
    match n
    case CodeGiven(_, code, deadline, _) =>
      && e.state.Pending? && e.verifier == Some(NewVerifier(h, EnrollmentCode, code))
      && e.expiresAt == Some(deadline) && e.activatedAt.None? && e.revokedAt.None?
    case SecretGiven(_, _, secret) =>
      && e.state.Active? && e.verifier == Some(NewVerifier(h, ClientSecret, secret))
      && e.expiresAt.None? && e.activatedAt.Some? && e.revokedAt.None?
    case Killed(_) =>
      e.state.Revoked? && e.verifier.None? && e.expiresAt.None? && e.revokedAt.Some?
    case _ => false
  }

  ghost predicate Tracks(h: Hash, clients: seq<Entry>, notes: seq<Note>, id: string) {
    match LastAbout(notes, id)
    case None => Position(clients, id).None?
    case Some(k) =>
      var p := Position(clients, id);
      && p.Some? && Agrees(h, clients[p.value], notes[k])
      && clients[p.value].generation == 1 + AdvanceCount(notes, id)
  }

  ghost predicate UniqueIds(clients: seq<Entry>) {
    && (forall i, j :: 0 <= i < j < |clients| ==> clients[i].id != clients[j].id)
    && (forall i :: 0 <= i < |clients| ==> ValidId(clients[i].id))
  }

  ghost predicate OperatorTracks(h: Hash, operator: Option<OperatorEntry>, notes: seq<Note>) {
    match CurrentOperator(notes)
    case None => operator.None?
    case Some(s) => operator.Some? && operator.value.digest == NewVerifier(h, OperatorSecret, s).digest
  }

  ghost predicate Inv(h: Hash, o: Outcome) {
    && UniqueIds(o.registry.clients)
    && (forall id: string :: Tracks(h, o.registry.clients, o.notes, id))
    && OperatorTracks(h, o.registry.operator, o.notes)
  }

  lemma LastAboutAppended(notes: seq<Note>, n: Note, id: string)
    ensures LastAbout(notes + [n], id) == if About(n, id) then Some(|notes|) else LastAbout(notes, id)
    ensures AdvanceCount(notes + [n], id) == AdvanceCount(notes, id) + if Advances(n, id) then 1 else 0
  {
    assert (notes + [n])[..|notes|] == notes;
  }

  lemma OperatorAppended(notes: seq<Note>, n: Note)
    ensures CurrentOperator(notes + [n]) ==
            if n.OperatorGiven? then Some(n.operatorSecret) else if n.OperatorGone? then None else CurrentOperator(notes)
  {
    assert (notes + [n])[..|notes|] == notes;
  }

  lemma PositionIsUnique(clients: seq<Entry>, i: nat)
    requires UniqueIds(clients) && i < |clients|
    ensures Position(clients, clients[i].id) == Some(i)
  {
    var p := Position(clients, clients[i].id);
    assert p.Some? && clients[p.value].id == clients[i].id;
  }

  lemma PositionAfterReplace(clients: seq<Entry>, i: nat, entry: Entry, id: string)
    requires UniqueIds(clients) && i < |clients| && entry.id == clients[i].id
    ensures UniqueIds(clients[i := entry]) && Position(clients[i := entry], id) == Position(clients, id)
  {
    var later := clients[i := entry];
    assert forall k :: 0 <= k < |clients| ==> later[k].id == clients[k].id;
    var p := Position(later, id);
    if p.Some? {
      PositionIsUnique(clients, p.value);
    }
  }

  /** An entry overwritten to say what a new note says. */
  lemma ReplacedTracks(h: Hash, o: Outcome, i: nat, entry: Entry, n: Note)
    requires Inv(h, o) && i < |o.registry.clients| && entry.id == o.registry.clients[i].id
    requires About(n, entry.id) && Agrees(h, entry, n)
    requires entry.generation == o.registry.clients[i].generation + if Advances(n, entry.id) then 1 else 0
    ensures Inv(h, Outcome(Replace(o.registry, i, entry), o.notes + [n]))
  {
    var clients := o.registry.clients;
    var later, notes := clients[i := entry], o.notes + [n];
    PositionIsUnique(clients, i);
    forall id: string
      ensures Tracks(h, later, notes, id)
    {
      assert Tracks(h, clients, o.notes, id);
      LastAboutAppended(o.notes, n, id);
      PositionAfterReplace(clients, i, entry, id);
    }
    PositionAfterReplace(clients, i, entry, entry.id);
    OperatorAppended(o.notes, n);
  }

  /** An entry changed in nothing the record speaks about. */
  lemma QuietlyReplacedTracks(h: Hash, o: Outcome, i: nat, entry: Entry)
    requires Inv(h, o) && i < |o.registry.clients|
    requires var old_ := o.registry.clients[i];
             entry == old_.(displayName := entry.displayName, noAccount := entry.noAccount)
    ensures Inv(h, Outcome(Replace(o.registry, i, entry), o.notes))
  {
    var clients := o.registry.clients;
    var later := clients[i := entry];
    forall id: string
      ensures Tracks(h, later, o.notes, id)
    {
      assert Tracks(h, clients, o.notes, id);
      PositionAfterReplace(clients, i, entry, id);
    }
    PositionAfterReplace(clients, i, entry, entry.id);
  }

  lemma PushedTracks(h: Hash, o: Outcome, entry: Entry, n: Note)
    requires Inv(h, o) && Position(o.registry.clients, entry.id).None? && ValidId(entry.id)
    requires About(n, entry.id) && !Advances(n, entry.id) && Agrees(h, entry, n) && entry.generation == 1
    ensures Inv(h, Outcome(o.registry.(clients := o.registry.clients + [entry]), o.notes + [n]))
  {
    var clients := o.registry.clients;
    var later, notes := clients + [entry], o.notes + [n];
    assert UniqueIds(later);
    forall id: string
      ensures Tracks(h, later, notes, id)
    {
      assert Tracks(h, clients, o.notes, id);
      LastAboutAppended(o.notes, n, id);
      var p := Position(later, id);
      if p.Some? {
        PositionIsUnique(later, p.value);
      }
      var q := Position(clients, id);
      if q.Some? {
        assert later[q.value] == clients[q.value];
        PositionIsUnique(later, q.value);
      } else {
        assert p.Some? ==> later[p.value].id == id;
        assert id == entry.id ==> later[|clients|].id == id;
      }
      if id == entry.id {
        NoNoteNoAdvance(o.notes, id);
      }
    }
    OperatorAppended(o.notes, n);
  }

  lemma {:induction false} NoNoteNoAdvance(notes: seq<Note>, id: string)
    requires LastAbout(notes, id).None?
    ensures AdvanceCount(notes, id) == 0
  {
    if notes != [] {
      assert !About(notes[|notes| - 1], id);
      NoNoteNoAdvance(notes[..|notes| - 1], id);
    }
  }

  lemma OperatorNoteTracks(h: Hash, o: Outcome, operator: Option<OperatorEntry>, n: Note)
    requires Inv(h, o) && AboutOperator(n)
    requires n.OperatorGiven? ==>
               operator.Some? && operator.value.digest == NewVerifier(h, OperatorSecret, n.operatorSecret).digest
    requires n.OperatorGone? ==> operator.None?
    ensures Inv(h, Outcome(o.registry.(operator := operator), o.notes + [n]))
  {
    var notes := o.notes + [n];
    forall id: string
      ensures Tracks(h, o.registry.clients, notes, id)
    {
      assert Tracks(h, o.registry.clients, o.notes, id);
      LastAboutAppended(o.notes, n, id);
    }
    OperatorAppended(o.notes, n);
  }

  lemma ActiveIsPosition(clients: seq<Entry>, id: string)
    requires UniqueIds(clients)
    ensures var p := Position(clients, id);
            ActivePosition(clients, id) == if p.Some? && clients[p.value].state.Active? then p else None
  {
    var p, a := Position(clients, id), ActivePosition(clients, id);
    if a.Some? {
      PositionIsUnique(clients, a.value);
    } else if p.Some? {
      assert clients[p.value].id == id;
    }
  }

  lemma OperatorCallKeeps(h: Hash, o: Outcome, c: Call)
    requires CollisionFree(h) && Inv(h, o) && (c.Provision? || c.RemoveOperator?)
    ensures var (after, note) := Perform(h, o.registry, c);
            Inv(h, Outcome(after, if note.Some? then o.notes + [note.value] else o.notes))
  {
    var (after, note) := Perform(h, o.registry, c);
    OperatorNoteTracks(h, o, after.operator, note.value);
  }

  lemma IssueKeeps(h: Hash, o: Outcome, c: Call)
    requires CollisionFree(h) && Inv(h, o) && c.Issue?
    ensures var (after, note) := Perform(h, o.registry, c);
            Inv(h, Outcome(after, if note.Some? then o.notes + [note.value] else o.notes))
  {
    var (after, note) := Perform(h, o.registry, c);
    if after != o.registry || note.Some? {
      var p := Position(o.registry.clients, c.id);
      assert Tracks(h, o.registry.clients, o.notes, c.id);
      PushedTracks(h, o, after.clients[|o.registry.clients|], note.value);
    }
  }

  lemma ReissueKeeps(h: Hash, o: Outcome, c: Call)
    requires CollisionFree(h) && Inv(h, o) && c.Reissue?
    ensures var (after, note) := Perform(h, o.registry, c);
            Inv(h, Outcome(after, if note.Some? then o.notes + [note.value] else o.notes))
  {
    var (after, note) := Perform(h, o.registry, c);
    if after != o.registry || note.Some? {
      var p := Position(o.registry.clients, c.id);
      assert Tracks(h, o.registry.clients, o.notes, c.id);
      ReplacedTracks(h, o, p.value, after.clients[p.value], note.value);
    }
  }

  lemma ClaimKeeps(h: Hash, o: Outcome, c: Call)
    requires CollisionFree(h) && Inv(h, o) && c.Claim?
    ensures var (after, note) := Perform(h, o.registry, c);
            Inv(h, Outcome(after, if note.Some? then o.notes + [note.value] else o.notes))
  {
    var (after, note) := Perform(h, o.registry, c);
    if after != o.registry || note.Some? {
      var p := Position(o.registry.clients, c.id);
      assert Tracks(h, o.registry.clients, o.notes, c.id);
      ReplacedTracks(h, o, p.value, after.clients[p.value], note.value);
    }
  }

  lemma RotateKeeps(h: Hash, o: Outcome, c: Call)
    requires CollisionFree(h) && Inv(h, o) && c.Rotate?
    ensures var (after, note) := Perform(h, o.registry, c);
            Inv(h, Outcome(after, if note.Some? then o.notes + [note.value] else o.notes))
  {
    var (after, note) := Perform(h, o.registry, c);
    if after != o.registry || note.Some? {
      var p := Position(o.registry.clients, c.id);
      assert Tracks(h, o.registry.clients, o.notes, c.id);
      ActiveIsPosition(o.registry.clients, c.id);
      ReplacedTracks(h, o, p.value, after.clients[p.value], note.value);
    }
  }

  lemma RevokeKeeps(h: Hash, o: Outcome, c: Call)
    requires CollisionFree(h) && Inv(h, o) && c.Revoke?
    ensures var (after, note) := Perform(h, o.registry, c);
            Inv(h, Outcome(after, if note.Some? then o.notes + [note.value] else o.notes))
  {
    var (after, note) := Perform(h, o.registry, c);
    if after != o.registry || note.Some? {
      var p := Position(o.registry.clients, c.id);
      assert Tracks(h, o.registry.clients, o.notes, c.id);
      assert after == Replace(o.registry, p.value, after.clients[p.value]);
      ReplacedTracks(h, o, p.value, after.clients[p.value], note.value);
    }
  }

  lemma QuietCallKeeps(h: Hash, o: Outcome, c: Call)
    requires CollisionFree(h) && Inv(h, o) && (c.Rename? || c.SetNoAccount?)
    ensures var (after, note) := Perform(h, o.registry, c);
            Inv(h, Outcome(after, if note.Some? then o.notes + [note.value] else o.notes))
  {
    var (after, note) := Perform(h, o.registry, c);
    if after != o.registry || note.Some? {
      var p := Position(o.registry.clients, c.id);
      assert Tracks(h, o.registry.clients, o.notes, c.id);
      QuietlyReplacedTracks(h, o, p.value, after.clients[p.value]);
    }
  }

  /** Every operation keeps the entries and the record in step. */
  lemma PerformKeeps(h: Hash, o: Outcome, c: Call)
    requires CollisionFree(h) && Inv(h, o)
    ensures var (after, note) := Perform(h, o.registry, c);
            Inv(h, Outcome(after, if note.Some? then o.notes + [note.value] else o.notes))
  {
    hide *;
    match c
    case Issue(_, _, _, _, _) => IssueKeeps(h, o, c);
    case Reissue(_, _, _, _) => ReissueKeeps(h, o, c);
    case Claim(_, _, _, _) => ClaimKeeps(h, o, c);
    case Rotate(_, _) => RotateKeeps(h, o, c);
    case Revoke(_, _) => RevokeKeeps(h, o, c);
    case Rename(_, _) => QuietCallKeeps(h, o, c);
    case SetNoAccount(_, _) => QuietCallKeeps(h, o, c);
    case _ => OperatorCallKeeps(h, o, c);
  }

  /** The registry invariant holds after every run: ids unique and valid, the
      three states exactly matching verifier and time fields, and the generation
      one more than the reissues and rotations. */
  lemma {:induction false} RunKeeps(h: Hash, calls: seq<Call>)
    requires CollisionFree(h)
    ensures Inv(h, Run(h, calls))
  {
    if calls != [] {
      RunKeeps(h, calls[..|calls| - 1]);
      PerformKeeps(h, Run(h, calls[..|calls| - 1]), calls[|calls| - 1]);
    }
  }

  // ---------------------------------------------------------------- tokens

  predicate Discloses(n: Note) {
    n.CodeGiven? || n.SecretGiven? || n.OperatorGiven?
  }

  function TokenOf(n: Note): string
    requires Discloses(n)
  {
    match n
    case CodeGiven(_, code, _, _) => code
    case SecretGiven(_, _, secret) => secret
    case OperatorGiven(secret) => secret
  }

  ghost predicate DistinctTokens(notes: seq<Note>) {
    forall i, j :: 0 <= i < j < |notes| && Discloses(notes[i]) && Discloses(notes[j]) ==>
      TokenOf(notes[i]) != TokenOf(notes[j])
  }

  ghost predicate Drawn(calls: seq<Call>, token: string) {
    exists k :: 0 <= k < |calls| && Draws(calls[k]) && calls[k].token == token
  }

  lemma {:induction false} TokensAreDistinct(h: Hash, calls: seq<Call>)
    requires Fresh(calls)
    ensures DistinctTokens(Run(h, calls).notes)
    ensures forall i :: 0 <= i < |Run(h, calls).notes| && Discloses(Run(h, calls).notes[i]) ==>
              Drawn(calls, TokenOf(Run(h, calls).notes[i]))
  {
    if calls != [] {
      var front, last := calls[..|calls| - 1], calls[|calls| - 1];
      TokensAreDistinct(h, front);
      var before, notes := Run(h, front).notes, Run(h, calls).notes;
      forall i | 0 <= i < |before| && Discloses(before[i])
        ensures Drawn(calls, TokenOf(before[i])) && (Draws(last) ==> TokenOf(before[i]) != last.token)
      {
        assert Drawn(front, TokenOf(before[i]));
        var k :| 0 <= k < |front| && Draws(front[k]) && front[k].token == TokenOf(before[i]);
        assert calls[k] == front[k];
      }
      if |notes| > |before| && Discloses(notes[|before|]) {
        assert Draws(last) && TokenOf(notes[|before|]) == last.token && calls[|calls| - 1] == last;
      }
    }
  }

  // ---------------------------------------------------------------- what the record decides

  lemma SecretNamesOneId(notes: seq<Note>, secret: string, a: string, b: string)
    requires DistinctTokens(notes)
    requires CurrentSecret(notes, a) == Some(secret) && CurrentSecret(notes, b) == Some(secret)
    ensures a == b
  {
    var j, k := LastAbout(notes, a).value, LastAbout(notes, b).value;
    assert TokenOf(notes[j]) == secret && TokenOf(notes[k]) == secret;
    assert j == k;
  }

  /** A secret authenticates as a client exactly when it is the newest secret
      disclosed for that id with no reissue or revocation since. */
  lemma AuthenticatesNewestSecretOnly(h: Hash, calls: seq<Call>, secret: string, id: string)
    requires CollisionFree(h) && Fresh(calls)
    ensures var o := Run(h, calls);
            ClientBySecret(h, o.registry.clients, secret) == Some(id) <==> CurrentSecret(o.notes, id) == Some(secret)
  {
    RunKeeps(h, calls);
    TokensAreDistinct(h, calls);
    NewestSecretOpens(h, Run(h, calls), secret, id);
  }

  lemma NewestSecretOpens(h: Hash, o: Outcome, secret: string, id: string)
    requires CollisionFree(h) && Inv(h, o) && DistinctTokens(o.notes)
    ensures ClientBySecret(h, o.registry.clients, secret) == Some(id) <==> CurrentSecret(o.notes, id) == Some(secret)
  {
    var clients := o.registry.clients;
    var found := ClientBySecret(h, clients, secret);
    if found.Some? {
      var i :| 0 <= i < |clients| && clients[i].id == found.value && Authenticates(h, clients[i], secret);
      EntryAuthenticates(h, o, i, secret);
      if CurrentSecret(o.notes, id) == Some(secret) {
        SecretNamesOneId(o.notes, secret, id, found.value);
      }
    } else if CurrentSecret(o.notes, id) == Some(secret) {
      assert Tracks(h, clients, o.notes, id);
      EntryAuthenticates(h, o, Position(clients, id).value, secret);
    }
  }

  lemma EntryAuthenticates(h: Hash, o: Outcome, i: nat, secret: string)
    requires CollisionFree(h) && Inv(h, o) && i < |o.registry.clients|
    ensures var e := o.registry.clients[i];
            Authenticates(h, e, secret) <==> CurrentSecret(o.notes, e.id) == Some(secret)
  {
    var e := o.registry.clients[i];
    PositionIsUnique(o.registry.clients, i);
    assert Tracks(h, o.registry.clients, o.notes, e.id);
    var n := o.notes[LastAbout(o.notes, e.id).value];
    if n.SecretGiven? {
      MatchesOnlyItsOwn(h, ClientSecret, n.secret, ClientSecret, secret);
    }
  }

  /** A claim is decided by the newest code issued for the id: granted exactly
      when it is that code, unconsumed, unrevoked and not past its deadline. */
  lemma ClaimNeedsTheCurrentCode(h: Hash, calls: seq<Call>, id: string, code: string, now: int)
    requires CollisionFree(h)
    ensures var o := Run(h, calls);
            var current := CurrentCode(o.notes, id);
            ClaimRefusal(h, o.registry, id, code, now) ==
            if LastAbout(o.notes, id).None? then Some(UnknownId)
            else if current.None? || current.value.0 != code then Some(WrongCode)
            else if now > current.value.1 then Some(Expired)
            else None
  {
    RunKeeps(h, calls);
    var o := Run(h, calls);
    assert Tracks(h, o.registry.clients, o.notes, id);
    if LastAbout(o.notes, id).Some? {
      var n := o.notes[LastAbout(o.notes, id).value];
      match n
      case CodeGiven(_, issued, _, _) => MatchesOnlyItsOwn(h, EnrollmentCode, issued, EnrollmentCode, code);
      case SecretGiven(_, _, secret) => MatchesOnlyItsOwn(h, ClientSecret, secret, EnrollmentCode, code);
      case Killed(_) =>
    }
  }

  /** A code that verifies belongs to a pending entry: the second refusal of a
      claim for a wrong code is never the deciding one. */
  lemma VerifiedIsPending(h: Hash, calls: seq<Call>, i: nat, code: string)
    requires CollisionFree(h) && i < |Run(h, calls).registry.clients|
    requires var e := Run(h, calls).registry.clients[i];
             e.verifier.Some? && Matches(h, e.verifier.value, EnrollmentCode, code)
    ensures Run(h, calls).registry.clients[i].state.Pending?
  {
    RunKeeps(h, calls);
    var o := Run(h, calls);
    var e := o.registry.clients[i];
    PositionIsUnique(o.registry.clients, i);
    assert Tracks(h, o.registry.clients, o.notes, e.id);
    var n := o.notes[LastAbout(o.notes, e.id).value];
    if n.SecretGiven? {
      MatchesOnlyItsOwn(h, ClientSecret, n.secret, EnrollmentCode, code);
    }
  }

  /** Every consumed code was the newest one its id had. */
  ghost predicate ClaimsFollowIssues(notes: seq<Note>) {
    forall k :: 0 <= k < |notes| && notes[k].SecretGiven? && notes[k].consumed.Some? ==>
      var m := LastAbout(notes[..k], notes[k].id);
      m.Some? && notes[m.value].CodeGiven? && notes[m.value].code == notes[k].consumed.value
  }

  lemma {:induction false} RunClaimsFollowIssues(h: Hash, calls: seq<Call>)
    requires CollisionFree(h)
    ensures ClaimsFollowIssues(Run(h, calls).notes)
  {
    if calls != [] {
      var front, last := calls[..|calls| - 1], calls[|calls| - 1];
      RunClaimsFollowIssues(h, front);
      var before, notes := Run(h, front), Run(h, calls).notes;
      forall k | 0 <= k < |notes| && notes[k].SecretGiven? && notes[k].consumed.Some?
        ensures var m := LastAbout(notes[..k], notes[k].id);
                m.Some? && notes[m.value].CodeGiven? && notes[m.value].code == notes[k].consumed.value
      {
        assert notes[..|before.notes|] == before.notes;
        if k < |before.notes| {
          assert notes[..k] == before.notes[..k];
        } else {
          assert last.Claim? && notes[k] == SecretGiven(last.id, Some(last.code), last.token);
          ClaimNeedsTheCurrentCode(h, front, last.id, last.code, last.now);
        }
      }
    }
  }

  /** No code is ever claimed twice, for the same id or another. */
  lemma NoCodeIsClaimedTwice(h: Hash, calls: seq<Call>, i: nat, j: nat)
    requires CollisionFree(h) && Fresh(calls)
    requires i < j < |Run(h, calls).notes|
    requires var notes := Run(h, calls).notes;
             && notes[i].SecretGiven? && notes[i].consumed.Some?
             && notes[j].SecretGiven? && notes[j].consumed.Some?
    ensures Run(h, calls).notes[i].consumed != Run(h, calls).notes[j].consumed
  {
    RunClaimsFollowIssues(h, calls);
    TokensAreDistinct(h, calls);
    var notes := Run(h, calls).notes;
    var m, n := LastAbout(notes[..i], notes[i].id).value, LastAbout(notes[..j], notes[j].id).value;
    if notes[i].consumed == notes[j].consumed {
      assert TokenOf(notes[m]) == TokenOf(notes[n]);
      assert m == n;
      assert notes[..j][i] == notes[i] && About(notes[..j][i], notes[j].id);
    }
  }

  /** The operator slot answers for the newest operator secret alone, and for
      none after its removal. */
  lemma OperatorIsTheNewestSecret(h: Hash, calls: seq<Call>, secret: string)
    requires CollisionFree(h)
    ensures var o := Run(h, calls);
            OperatorBySecret(h, o.registry.operator, secret) <==> CurrentOperator(o.notes) == Some(secret)
  {
    RunKeeps(h, calls);
    var o := Run(h, calls);
    if CurrentOperator(o.notes).Some? {
      var s := CurrentOperator(o.notes).value;
      assert Verifier(Domain(OperatorSecret), o.registry.operator.value.digest) == NewVerifier(h, OperatorSecret, s);
      MatchesOnlyItsOwn(h, OperatorSecret, s, OperatorSecret, secret);
    }
  }

  /** No client secret opens the operator slot and no operator secret is a client's. */
  lemma RolesStayApart(h: Hash, calls: seq<Call>, secret: string)
    requires CollisionFree(h) && Fresh(calls)
    ensures var o := Run(h, calls);
            !(OperatorBySecret(h, o.registry.operator, secret) && ClientBySecret(h, o.registry.clients, secret).Some?)
  {
    var o := Run(h, calls);
    OperatorIsTheNewestSecret(h, calls, secret);
    var client := ClientBySecret(h, o.registry.clients, secret);
    if client.Some? && CurrentOperator(o.notes) == Some(secret) {
      AuthenticatesNewestSecretOnly(h, calls, secret, client.value);
      TokensAreDistinct(h, calls);
      SecretIsNotTheOperators(o.notes, secret, client.value);
    }
  }

  lemma SecretIsNotTheOperators(notes: seq<Note>, secret: string, id: string)
    requires DistinctTokens(notes) && CurrentSecret(notes, id) == Some(secret)
    ensures CurrentOperator(notes) != Some(secret)
  {
    if CurrentOperator(notes).Some? {
      var k := LastAbout(notes, id).value;
      var m := OperatorNoteOf(notes);
      assert k != m && TokenOf(notes[k]) == secret && TokenOf(notes[m]) == CurrentOperator(notes).value;
    }
  }

  lemma {:induction false} OperatorNoteOf(notes: seq<Note>) returns (m: nat)
    requires CurrentOperator(notes).Some?
    ensures m < |notes| && notes[m].OperatorGiven? && notes[m].operatorSecret == CurrentOperator(notes).value
  {
    if notes[|notes| - 1].OperatorGiven? {
      m := |notes| - 1;
    } else {
      m := OperatorNoteOf(notes[..|notes| - 1]);
    }
  }

  /** The bootstrap exception holds exactly until the first client is issued,
      whatever becomes of that client, and while no operator secret stands. */
  lemma BootstrapEndsWithTheFirstClient(h: Hash, calls: seq<Call>)
    requires CollisionFree(h)
    ensures var o := Run(h, calls);
            IsBootstrap(o.registry) <==>
            CurrentOperator(o.notes).None? && forall k :: 0 <= k < |o.notes| ==> AboutOperator(o.notes[k])
  {
    RunKeeps(h, calls);
    var o := Run(h, calls);
    forall k | 0 <= k < |o.notes| && !AboutOperator(o.notes[k])
      ensures o.registry.clients != []
    {
      assert Tracks(h, o.registry.clients, o.notes, o.notes[k].id);
    }
    if o.registry.clients != [] {
      var id := o.registry.clients[0].id;
      assert Tracks(h, o.registry.clients, o.notes, id);
      var k := LastAbout(o.notes, id).value;
      assert !AboutOperator(o.notes[k]);
    }
  }

  // ---------------------------------------------------------------- how long a code lives

  /** The call may end what `code` is good for: it reissues or revokes the id, or
      claims it with this code. */
  predicate Ends(c: Call, id: string, code: string) {
    || ((c.Reissue? || c.Revoke?) && c.id == id)
    || (c.Claim? && c.id == id && c.code == code)
  }

  /** A call that gave a code for `id`. */
  predicate GaveCode(h: Hash, before: Registry, c: Call, id: string) {
    (c.Issue? || c.Reissue?) && c.id == id && Perform(h, before, c).1.Some?
  }

  lemma RunOfOneMore(h: Hash, calls: seq<Call>, c: Call)
    ensures var (before, performed) := (Run(h, calls), Perform(h, Run(h, calls).registry, c));
            Run(h, calls + [c]) ==
            Outcome(performed.0, if performed.1.Some? then before.notes + [performed.1.value] else before.notes)
  {
    assert (calls + [c])[..|calls|] == calls;
  }

  /** A call that ends nothing leaves the code the newest thing known of its id. */
  lemma CodeOutlives(h: Hash, calls: seq<Call>, c: Call, id: string, code: string)
    requires CollisionFree(h) && !Ends(c, id, code)
    requires var n := CurrentCode(Run(h, calls).notes, id); n.Some? && n.value.0 == code
    ensures CurrentCode(Run(h, calls + [c]).notes, id) == CurrentCode(Run(h, calls).notes, id)
  {
    RunOfOneMore(h, calls, c);
    var o := Run(h, calls);
    var note := Perform(h, o.registry, c).1;
    if note.Some? {
      LastAboutAppended(o.notes, note.value, id);
      if About(note.value, id) {
        OnlyEndingCallsAreNoted(h, calls, c, id, code);
      }
    }
  }

  lemma OnlyEndingCallsAreNoted(h: Hash, calls: seq<Call>, c: Call, id: string, code: string)
    requires CollisionFree(h) && !Ends(c, id, code)
    requires var n := CurrentCode(Run(h, calls).notes, id); n.Some? && n.value.0 == code
    ensures var note := Perform(h, Run(h, calls).registry, c).1; note.None? || !About(note.value, id)
  {
    var o := Run(h, calls);
    RunKeeps(h, calls);
    assert Tracks(h, o.registry.clients, o.notes, id);
    if c.Claim? && c.id == id {
      ClaimNeedsTheCurrentCode(h, calls, id, c.code, c.now);
    } else if c.Rotate? && c.id == id {
      ActiveIsPosition(o.registry.clients, id);
    }
  }

  lemma {:induction false} CodeStands(h: Hash, calls: seq<Call>, later: seq<Call>, id: string, code: string)
    requires CollisionFree(h) && forall k :: 0 <= k < |later| ==> !Ends(later[k], id, code)
    requires var n := CurrentCode(Run(h, calls).notes, id); n.Some? && n.value.0 == code
    ensures CurrentCode(Run(h, calls + later).notes, id) == CurrentCode(Run(h, calls).notes, id)
    decreases |later|
  {
    hide *;
    if later == [] {
      assert calls + later == calls;
    } else {
      var n := |later| - 1;
      CodeStands(h, calls, later[..n], id, code);
      CodeOutlives(h, calls + later[..n], later[n], id, code);
      assert calls + later == calls + later[..n] + [later[n]];
    }
  }

  lemma CodeIsGiven(h: Hash, calls: seq<Call>, c: Call)
    requires (c.Issue? || c.Reissue?) && GaveCode(h, Run(h, calls).registry, c, c.id)
    ensures var most := 0x7FFF_FFFF_FFFF_FFFF;
            CurrentCode(Run(h, calls + [c]).notes, c.id) ==
            Some((c.token, c.now + if c.lifetime <= most then c.lifetime else most))
  {
    hide *;
    RunOfOneMore(h, calls, c);
    var o := Run(h, calls);
    NoteOfGivenCode(h, o.registry, c);
    LastAboutAppended(o.notes, Perform(h, o.registry, c).1.value, c.id);
    CodeOfLastNote(o.notes, Perform(h, o.registry, c).1.value, c.id);
  }

  lemma NoteOfGivenCode(h: Hash, r: Registry, c: Call)
    requires (c.Issue? || c.Reissue?) && GaveCode(h, r, c, c.id)
    ensures var most := 0x7FFF_FFFF_FFFF_FFFF;
            Perform(h, r, c).1 ==
            Some(CodeGiven(c.id, c.token, c.now + if c.lifetime <= most then c.lifetime else most, c.Reissue?))
  {
  }

  lemma CodeOfLastNote(notes: seq<Note>, n: Note, id: string)
    requires n.CodeGiven? && n.id == id
    ensures CurrentCode(notes + [n], id) == Some((n.code, n.deadline))
  {
    LastAboutAppended(notes, n, id);
  }

  /** A code given at `now` for `lifetime` seconds is granted up to and with
      `now + lifetime`, and refused as expired from then on, whatever other calls
      come between, until one ends it. A lifetime longer than a signed 64-bit
      count of seconds counts as the longest. */
  lemma CodeLivesItsLifetime(h: Hash, calls: seq<Call>, c: Call, later: seq<Call>, t: int)
    requires CollisionFree(h) && (c.Issue? || c.Reissue?) && GaveCode(h, Run(h, calls).registry, c, c.id)
    requires forall k :: 0 <= k < |later| ==> !Ends(later[k], c.id, c.token)
    ensures var most := 0x7FFF_FFFF_FFFF_FFFF;
            ClaimRefusal(h, Run(h, calls + [c] + later).registry, c.id, c.token, t) ==
            if t > c.now + (if c.lifetime <= most then c.lifetime else most) then Some(Expired) else None
  {
    CodeIsGiven(h, calls, c);
    CodeStands(h, calls + [c], later, c.id, c.token);
    ClaimNeedsTheCurrentCode(h, calls + [c] + later, c.id, c.token, t);
    hide Run, Perform, ClaimRefusal;
    assert LastAbout(Run(h, calls + [c] + later).notes, c.id).Some?;
  }

  // ---------------------------------------------------------------- what is accepted, and what an entry carries

  lemma KnownIsThere(h: Hash, calls: seq<Call>, id: string)
    requires CollisionFree(h)
    ensures var o := Run(h, calls);
            && (Position(o.registry.clients, id).Some? <==> LastAbout(o.notes, id).Some?)
            && (ActivePosition(o.registry.clients, id).Some? <==> CurrentSecret(o.notes, id).Some?)
  {
    RunKeeps(h, calls);
    var o := Run(h, calls);
    assert Tracks(h, o.registry.clients, o.notes, id);
    ActiveIsPosition(o.registry.clients, id);
    hide Run, LastAbout, Position, ActivePosition, AdvanceCount, NewVerifier;
  }

  /** An issue is accepted exactly when id and name are valid and the id was
      never issued, and is a duplicate when only that fails; a reissue or a
      revocation is accepted exactly when it was. */
  lemma AcceptedIff(h: Hash, calls: seq<Call>, id: string, name: string, now: int, lifetime: nat, token: string)
    requires CollisionFree(h)
    ensures var o := Run(h, calls);
            var known := LastAbout(o.notes, id).Some?;
            && (AfterIssue(h, o.registry, id, name, now, lifetime, token).Ok? <==>
                  ValidId(id) && ValidDisplayName(name).Some? && !known)
            && (AfterIssue(h, o.registry, id, name, now, lifetime, token) == Err(Duplicate) <==>
                  ValidId(id) && ValidDisplayName(name).Some? && known)
            && (AfterReissue(h, o.registry, id, now, lifetime, token).Ok? <==> known)
            && (AfterRevoke(o.registry, id, now).Ok? <==> known)
            && (AfterRename(o.registry, id, name).Ok? <==> ValidDisplayName(name).Some? && known)
            && (AfterRotate(h, o.registry, id, token).Ok? <==> CurrentSecret(o.notes, id).Some?)
  {
    KnownIsThere(h, calls, id);
    hide Run, LastAbout, CurrentSecret, ValidId, ValidDisplayName, NewVerifier, Deadline;
  }

  /** What an entry carries beside its credential. */
  datatype Facts = Facts(name: string, noAccount: bool, issuedAt: int, activatedAt: Option<int>, revokedAt: Option<int>)

  /** What a call makes of the facts known of `id`; `done` says it was accepted. */
  function FactsAfter(known: Option<Facts>, c: Call, id: string, done: bool): Option<Facts> {
    if c.Issue? && c.id == id && done && known.None? then Some(Facts(Trim(c.name), false, c.now, None, None))
    else if known.None? then None
    else
      var f := known.value;
      match c
      case Reissue(i, now, _, _) => Some(if i == id && done then f.(issuedAt := now, activatedAt := None, revokedAt := None) else f)
      case Claim(i, _, now, _) => Some(if i == id && done then f.(activatedAt := Some(now)) else f)
      case Revoke(i, now) => Some(if i == id && f.revokedAt.None? then f.(revokedAt := Some(now)) else f)
      case Rename(i, name) => Some(if i == id && ValidDisplayName(name).Some? then f.(name := Trim(name)) else f)
      case SetNoAccount(i, noAccount) => Some(if i == id then f.(noAccount := noAccount) else f)
      case _ => Some(f)
  }

  function KnownOf(h: Hash, calls: seq<Call>, id: string): Option<Facts> {
    if calls == [] then None
    else
      var front, c := calls[..|calls| - 1], calls[|calls| - 1];
      FactsAfter(KnownOf(h, front, id), c, id, Perform(h, Run(h, front).registry, c).1.Some?)
  }

  function FactsOf(e: Entry): Facts {
    Facts(e.displayName, e.noAccount, e.issuedAt, e.activatedAt, e.revokedAt)
  }

  function FactsIn(clients: seq<Entry>, id: string): Option<Facts> {
    match Position(clients, id)
    case None => None
    case Some(i) => Some(FactsOf(clients[i]))
  }

  lemma FactsAfterReplace(r: Registry, i: nat, entry: Entry, id: string)
    requires UniqueIds(r.clients) && i < |r.clients| && entry.id == r.clients[i].id
    ensures FactsIn(Replace(r, i, entry).clients, id) ==
            if id == entry.id
            then Some(FactsOf(entry))
            else FactsIn(r.clients, id)
  {
    PositionAfterReplace(r.clients, i, entry, id);
    PositionIsUnique(r.clients, i);
  }

  lemma FactsAfterPush(clients: seq<Entry>, entry: Entry, id: string)
    requires Position(clients, entry.id).None?
    ensures FactsIn(clients + [entry], id) ==
            if id == entry.id
            then Some(FactsOf(entry))
            else FactsIn(clients, id)
  {
    PositionAfterPush(clients, entry, id);
  }

  lemma {:induction false} PositionAfterPush(clients: seq<Entry>, entry: Entry, id: string)
    ensures Position(clients + [entry], id) ==
            if Position(clients, id).Some? then Position(clients, id)
            else if entry.id == id then Some(|clients|) else None
  {
    if clients != [] {
      PositionAfterPush(clients[1..], entry, id);
      assert (clients + [entry])[1..] == clients[1..] + [entry];
    } else {
      assert (clients + [entry])[1..] == [];
    }
  }

  lemma FactsStep(h: Hash, o: Outcome, c: Call, id: string)
    requires CollisionFree(h) && Inv(h, o)
    ensures var (after, note) := Perform(h, o.registry, c);
            FactsIn(after.clients, id) == FactsAfter(FactsIn(o.registry.clients, id), c, id, note.Some?)
  {
    if !c.Provision? && !c.RemoveOperator? {
      assert Tracks(h, o.registry.clients, o.notes, c.id);
      if c.Issue? {
        IssueFacts(h, o.registry, c, id);
      } else {
        EntryFacts(h, o, c, id);
      }
    }
  }

  lemma IssueFacts(h: Hash, r: Registry, c: Call, id: string)
    requires c.Issue? && UniqueIds(r.clients)
    ensures var (after, note) := Perform(h, r, c);
            FactsIn(after.clients, id) == FactsAfter(FactsIn(r.clients, id), c, id, note.Some?)
  {
    var (after, note) := Perform(h, r, c);
    if note.Some? {
      FactsAfterPush(r.clients, after.clients[|r.clients|], id);
    }
  }

  /** The calls on an entry there is. */
  lemma EntryFacts(h: Hash, o: Outcome, c: Call, id: string)
    requires !c.Issue? && !c.Provision? && !c.RemoveOperator? && UniqueIds(o.registry.clients)
    requires Tracks(h, o.registry.clients, o.notes, c.id)
    ensures var (after, note) := Perform(h, o.registry, c);
            FactsIn(after.clients, id) == FactsAfter(FactsIn(o.registry.clients, id), c, id, note.Some?)
  {
    var r := o.registry;
    var p := Position(r.clients, c.id);
    if p.None? {
      UnknownIsRefused(h, r, c);
      NothingKnown(r.clients, c, id);
    } else {
      EntryOverwritten(h, o, c);
      hide *;
      var (after, note) := Perform(h, r, c);
      FactsAfterReplace(r, p.value, after.clients[p.value], id);
      FactsAreThere(r.clients, p.value);
      if id != c.id {
        OtherFactsStay(FactsIn(r.clients, id), c, id, note.Some?);
      }
    }
  }

  lemma FactsAreThere(clients: seq<Entry>, i: nat)
    requires UniqueIds(clients) && i < |clients|
    ensures FactsIn(clients, clients[i].id) == Some(FactsOf(clients[i]))
  {
    PositionIsUnique(clients, i);
  }

  lemma OtherFactsStay(known: Option<Facts>, c: Call, id: string, done: bool)
    requires !c.Issue? && !c.Provision? && !c.RemoveOperator? && c.id != id
    ensures FactsAfter(known, c, id, done) == known
  {
  }

  lemma UnknownIsRefused(h: Hash, r: Registry, c: Call)
    requires !c.Issue? && !c.Provision? && !c.RemoveOperator? && Position(r.clients, c.id).None?
    ensures Perform(h, r, c) == (r, None)
  {
    var p := ActivePosition(r.clients, c.id);
    assert p.None?;
  }

  lemma NothingKnown(clients: seq<Entry>, c: Call, id: string)
    requires !c.Issue? && !c.Provision? && !c.RemoveOperator? && Position(clients, c.id).None?
    ensures FactsAfter(FactsIn(clients, id), c, id, false) == FactsIn(clients, id)
  {
  }

  lemma EntryOverwritten(h: Hash, o: Outcome, c: Call)
    requires !c.Issue? && !c.Provision? && !c.RemoveOperator? && UniqueIds(o.registry.clients)
    requires Tracks(h, o.registry.clients, o.notes, c.id) && Position(o.registry.clients, c.id).Some?
    ensures var (r, p) := (o.registry, Position(o.registry.clients, c.id).value);
            var (after, note) := Perform(h, r, c);
            && |after.clients| == |r.clients| && after.clients[p].id == r.clients[p].id == c.id
            && after == Replace(r, p, after.clients[p])
            && Some(FactsOf(after.clients[p])) == FactsAfter(Some(FactsOf(r.clients[p])), c, c.id, note.Some?)
  {
    ActiveIsPosition(o.registry.clients, c.id);
    var clients, p := o.registry.clients, Position(o.registry.clients, c.id).value;
    assert clients[p := clients[p]] == clients;
  }

  /** Over every run an entry carries the newest accepted name, trimmed, the
      newest flag, and the times of the calls that gave them. */
  lemma {:induction false} EntryCarriesItsFacts(h: Hash, calls: seq<Call>, id: string)
    requires CollisionFree(h)
    ensures FactsIn(Run(h, calls).registry.clients, id) == KnownOf(h, calls, id)
  {
    if calls != [] {
      var front := calls[..|calls| - 1];
      EntryCarriesItsFacts(h, front, id);
      RunKeeps(h, front);
      FactsStep(h, Run(h, front), calls[|calls| - 1], id);
      hide Perform, FactsAfter, FactsIn, Inv;
    }
  }

  /** When the operator secret that stands was provisioned. */
  function ProvisionedAt(calls: seq<Call>): Option<int> {
    if calls == [] then None
    else
      match calls[|calls| - 1]
      case Provision(now, _) => Some(now)
      case RemoveOperator => None
      case _ => ProvisionedAt(calls[..|calls| - 1])
  }

  lemma {:induction false} OperatorCarriesItsTime(h: Hash, calls: seq<Call>)
    ensures var operator := Run(h, calls).registry.operator;
            ProvisionedAt(calls) == if operator.None? then None else Some(operator.value.rotatedAt)
  {
    if calls != [] {
      var front, c := calls[..|calls| - 1], calls[|calls| - 1];
      OperatorCarriesItsTime(h, front);
      OtherCallsLeaveTheOperator(h, Run(h, front).registry, c);
    }
  }

  lemma OtherCallsLeaveTheOperator(h: Hash, r: Registry, c: Call)
    ensures !c.Provision? && !c.RemoveOperator? ==> Perform(h, r, c).0.operator == r.operator
    ensures c.Provision? ==> Perform(h, r, c).0.operator.Some? && Perform(h, r, c).0.operator.value.rotatedAt == c.now
    ensures c.RemoveOperator? ==> Perform(h, r, c).0.operator.None?
  {
  }
}

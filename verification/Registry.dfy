/** The client registry and the remote-operator slot: what each operation does
    to the entries, first as functions of the value, then as the methods that
    overwrite the entries in place. */
module Registry {
  import opened Wrappers
  import opened Secret

  datatype EntryState = Pending | Active | Revoked

  datatype Entry = Entry(
    id: string,
    displayName: string,
    state: EntryState,
    generation: nat,
    issuedAt: int,
    expiresAt: Option<int>,
    activatedAt: Option<int>,
    revokedAt: Option<int>,
    verifier: Option<Verifier>,
    noAccount: bool)

  datatype OperatorEntry = OperatorEntry(digest: Digest, rotatedAt: int)

  datatype Registry = Registry(clients: seq<Entry>, operator: Option<OperatorEntry>)

  const EMPTY := Registry([], None)

  datatype IssueError = Invalid | Duplicate
  datatype ClaimCause = UnknownId | WrongCode | Expired

  // ---------------------------------------------------------------- lookups

  predicate LowerOrDigit(c: char) {
    'a' <= c <= 'z' || '0' <= c <= '9'
  }

  predicate ValidId(id: string) {
    && 1 <= |id| <= 63
    && (forall i :: 0 <= i < |id| ==> LowerOrDigit(id[i]) || id[i] == '_' || id[i] == '-')
    && LowerOrDigit(id[0])
  }

  predicate Whitespace(c: char) {
    || '\t' <= c <= '\r' || c == ' ' || c == '\U{0085}' || c == '\U{00A0}' || c == '\U{1680}'
    || '\U{2000}' <= c <= '\U{200A}' || c == '\U{2028}' || c == '\U{2029}' || c == '\U{202F}'
    || c == '\U{205F}' || c == '\U{3000}'
  }

  predicate Control(c: char) {
    c < ' ' || '\U{007F}' <= c <= '\U{009F}'
  }

  function Trim(s: string): string {
    if s == [] then s
    else if Whitespace(s[0]) then Trim(s[1..])
    else if Whitespace(s[|s| - 1]) then Trim(s[..|s| - 1])
    else s
  }

  function Utf8Length(s: string): nat {
    if s == [] then 0
    else
      (if s[0] < '\U{0080}' then 1 else if s[0] < '\U{0800}' then 2 else if s[0] < '\U{10000}' then 3 else 4)
      + Utf8Length(s[1..])
  }

  /** The trimmed name, when it is 1 to 128 bytes and carries no control character. */
  function ValidDisplayName(name: string): Option<string> {
    var trimmed := Trim(name);
    if trimmed != [] && Utf8Length(trimmed) <= 128 && (forall i :: 0 <= i < |trimmed| ==> !Control(trimmed[i]))
    then Some(trimmed) else None
  }

  /** The first entry with this id. */
  function Position(clients: seq<Entry>, id: string): (p: Option<nat>)
    ensures p.Some? ==> p.value < |clients| && clients[p.value].id == id
    ensures p.Some? ==> forall i :: 0 <= i < p.value ==> clients[i].id != id
    ensures p.None? <==> forall i :: 0 <= i < |clients| ==> clients[i].id != id
  {
    if clients == [] then None
    else if clients[0].id == id then Some(0)
    else
      var rest := Position(clients[1..], id);
      assert forall i :: 0 < i < |clients| ==> clients[i] == clients[1..][i - 1];
      if rest.None? then None else Some(rest.value + 1)
  }

  predicate Authenticates(h: Hash, e: Entry, secret: string) {
    e.state.Active? && e.verifier.Some? && Matches(h, e.verifier.value, ClientSecret, secret)
  }

  /** The first active entry whose secret verifier matches. */
  function ClientBySecret(h: Hash, clients: seq<Entry>, secret: string): (r: Option<string>)
    ensures r.None? <==> forall i :: 0 <= i < |clients| ==> !Authenticates(h, clients[i], secret)
    ensures r.Some? ==> exists i :: 0 <= i < |clients| && clients[i].id == r.value && Authenticates(h, clients[i], secret)
  {
    if clients == [] then None
    else if Authenticates(h, clients[0], secret) then Some(clients[0].id)
    else
      assert forall i :: 0 < i < |clients| ==> clients[i] == clients[1..][i - 1];
      ClientBySecret(h, clients[1..], secret)
  }

  /** The operator's digest is read back under the operator's own domain. */
  predicate OperatorBySecret(h: Hash, operator: Option<OperatorEntry>, secret: string) {
    operator.Some? && Matches(h, Verifier(Domain(OperatorSecret), operator.value.digest), OperatorSecret, secret)
  }

  predicate IsBootstrap(r: Registry) {
    r.clients == [] && r.operator.None?
  }

  const MAX_SECONDS := 0x7FFF_FFFF_FFFF_FFFF

  function Deadline(now: int, lifetime: nat): int {
    now + if lifetime > MAX_SECONDS then MAX_SECONDS else lifetime
  }

  // ---------------------------------------------------------------- operations on the value

  /** `code` is the freshly generated token; likewise below. */
  function AfterIssue(h: Hash, r: Registry, id: string, name: string, now: int, lifetime: nat, code: string)
    : Result<(Registry, int), IssueError>
  {
    if !ValidId(id) then Err(Invalid) else
    match ValidDisplayName(name)
    case None => Err(Invalid)
    case Some(displayName) =>
      if Position(r.clients, id).Some? then Err(Duplicate) else
      var entry := Entry(id, displayName, Pending, 1, now, Some(Deadline(now, lifetime)), None, None,
                         Some(NewVerifier(h, EnrollmentCode, code)), false);
      Ok((r.(clients := r.clients + [entry]), Deadline(now, lifetime)))
  }

  function Replace(r: Registry, i: nat, entry: Entry): Registry
    requires i < |r.clients|
  {
    r.(clients := r.clients[i := entry])
  }

  function AfterReissue(h: Hash, r: Registry, id: string, now: int, lifetime: nat, code: string)
    : Result<(Registry, int), ()>
  {
    match Position(r.clients, id)
    case None => Err(())
    case Some(i) =>
      var e := r.clients[i];
      Ok((Replace(r, i, e.(state := Pending, generation := e.generation + 1, issuedAt := now,
                           expiresAt := Some(Deadline(now, lifetime)), activatedAt := None, revokedAt := None,
                           verifier := Some(NewVerifier(h, EnrollmentCode, code)))),
          Deadline(now, lifetime)))
  }

  /** The checks of a claim, in order. */
  function ClaimRefusal(h: Hash, r: Registry, id: string, code: string, now: int): Option<ClaimCause> {
    match Position(r.clients, id)
    case None => Some(UnknownId)
    case Some(i) =>
      var e := r.clients[i];
      if !(e.verifier.Some? && Matches(h, e.verifier.value, EnrollmentCode, code)) then Some(WrongCode)
      else if !e.state.Pending? then Some(WrongCode)
      else if e.expiresAt.Some? && now > e.expiresAt.value then Some(Expired)
      else None
  }

  function AfterClaim(h: Hash, r: Registry, id: string, code: string, now: int, secret: string)
    : Result<(Registry, Entry), ClaimCause>
  {
    match ClaimRefusal(h, r, id, code, now)
    case Some(cause) => Err(cause)
    case None =>
      var i := Position(r.clients, id).value;
      var entry := r.clients[i].(state := Active, activatedAt := Some(now), expiresAt := None,
                                 verifier := Some(NewVerifier(h, ClientSecret, secret)));
      Ok((Replace(r, i, entry), entry))
  }

  function AfterSetNoAccount(r: Registry, id: string, noAccount: bool): Registry {
    match Position(r.clients, id)
    case None => r
    case Some(i) => Replace(r, i, r.clients[i].(noAccount := noAccount))
  }

  /** The first entry with this id that is active. */
  function ActivePosition(clients: seq<Entry>, id: string): (p: Option<nat>)
    ensures p.Some? ==> p.value < |clients| && clients[p.value].id == id && clients[p.value].state.Active?
    ensures p.None? ==> forall i :: 0 <= i < |clients| ==> clients[i].id != id || !clients[i].state.Active?
  {
    if clients == [] then None
    else if clients[0].id == id && clients[0].state.Active? then Some(0)
    else
      var rest := ActivePosition(clients[1..], id);
      assert forall i :: 0 < i < |clients| ==> clients[i] == clients[1..][i - 1];
      if rest.None? then None else Some(rest.value + 1)
  }

  function AfterRotate(h: Hash, r: Registry, id: string, secret: string): Result<Registry, ()> {
    match ActivePosition(r.clients, id)
    case None => Err(())
    case Some(i) =>
      var e := r.clients[i];
      Ok(Replace(r, i, e.(generation := e.generation + 1, verifier := Some(NewVerifier(h, ClientSecret, secret)))))
  }

  function AfterRevoke(r: Registry, id: string, now: int): Result<Registry, ()> {
    match Position(r.clients, id)
    case None => Err(())
    case Some(i) =>
      var e := r.clients[i];
      if e.state.Revoked? then Ok(r)
      else Ok(Replace(r, i, e.(state := Revoked, revokedAt := Some(now), expiresAt := None, verifier := None)))
  }

  function AfterRename(r: Registry, id: string, name: string): Result<Registry, ()> {
    match ValidDisplayName(name)
    case None => Err(())
    case Some(displayName) =>
      match Position(r.clients, id)
      case None => Err(())
      case Some(i) => Ok(Replace(r, i, r.clients[i].(displayName := displayName)))
  }

  function AfterProvision(h: Hash, r: Registry, now: int, secret: string): Registry {
    r.(operator := Some(OperatorEntry(NewVerifier(h, OperatorSecret, secret).digest, now)))
  }

  // ---------------------------------------------------------------- the object

  class LiveRegistry {
    const hash: Hash
    var clients: seq<Entry>
    var operator: Option<OperatorEntry>

    constructor (hash: Hash)
      ensures this.hash == hash && Value() == EMPTY
    {
      this.hash, clients, operator := hash, [], None;
    }

    function Value(): Registry
      reads this
    {
      Registry(clients, operator)
    }

    method Issue(id: string, name: string, now: int, lifetime: nat, code: string)
      returns (r: Result<(string, int), IssueError>)
      modifies this`clients
      ensures match AfterIssue(hash, old(Value()), id, name, now, lifetime, code)
              case Ok((after, deadline)) => Value() == after && r == Ok((code, deadline))
              case Err(why) => Value() == old(Value()) && r == Err(why)
    {
      if !ValidId(id) {
        return Err(Invalid);
      }
      var displayName := ValidDisplayName(name);
      if displayName.None? {
        return Err(Invalid);
      }
      if Position(clients, id).Some? {
        return Err(Duplicate);
      }
      var deadline := Deadline(now, lifetime);
      var entry := Entry(id, displayName.value, Pending, 1, now, Some(deadline), None, None,
                         Some(NewVerifier(hash, EnrollmentCode, code)), false);
      clients := clients + [entry];
      return Ok((code, deadline));
    }

    method Reissue(id: string, now: int, lifetime: nat, code: string) returns (r: Result<(string, int), ()>)
      modifies this`clients
      ensures match AfterReissue(hash, old(Value()), id, now, lifetime, code)
              case Ok((after, deadline)) => Value() == after && r == Ok((code, deadline))
              case Err(why) => Value() == old(Value()) && r == Err(why)
    {
      var found := Position(clients, id);
      if found.None? {
        return Err(());
      }
      var entry := clients[found.value];
      entry := entry.(state := Pending, generation := entry.generation + 1, issuedAt := now);
      entry := entry.(expiresAt := Some(Deadline(now, lifetime)), activatedAt := None, revokedAt := None);
      entry := entry.(verifier := Some(NewVerifier(hash, EnrollmentCode, code)));
      clients := clients[found.value := entry];
      return Ok((code, Deadline(now, lifetime)));
    }

    method Claim(id: string, code: string, now: int, secret: string) returns (r: Result<(Entry, string), ClaimCause>)
      modifies this`clients
      ensures match AfterClaim(hash, old(Value()), id, code, now, secret)
              case Ok((after, entry)) => Value() == after && r == Ok((entry, secret))
              case Err(why) => Value() == old(Value()) && r == Err(why)
    {
      var found := Position(clients, id);
      if found.None? {
        return Err(UnknownId);
      }
      var entry := clients[found.value];
      if entry.verifier.None? || !Matches(hash, entry.verifier.value, EnrollmentCode, code) {
        return Err(WrongCode);
      }
      if entry.state != Pending {
        return Err(WrongCode);
      }
      if entry.expiresAt.Some? && now > entry.expiresAt.value {
        return Err(Expired);
      }
      entry := entry.(state := Active, activatedAt := Some(now), expiresAt := None);
      entry := entry.(verifier := Some(NewVerifier(hash, ClientSecret, secret)));
      clients := clients[found.value := entry];
      return Ok((entry, secret));
    }

    method SetNoAccount(id: string, noAccount: bool)
      modifies this`clients
      ensures Value() == AfterSetNoAccount(old(Value()), id, noAccount)
    {
      var found := Position(clients, id);
      if found.Some? {
        clients := clients[found.value := clients[found.value].(noAccount := noAccount)];
      }
    }

    method Rotate(id: string, secret: string) returns (r: Result<string, ()>)
      modifies this`clients
      ensures match AfterRotate(hash, old(Value()), id, secret)
              case Ok(after) => Value() == after && r == Ok(secret)
              case Err(why) => Value() == old(Value()) && r == Err(why)
    {
      var found := ActivePosition(clients, id);
      if found.None? {
        return Err(());
      }
      var entry := clients[found.value];
      entry := entry.(generation := entry.generation + 1, verifier := Some(NewVerifier(hash, ClientSecret, secret)));
      clients := clients[found.value := entry];
      return Ok(secret);
    }

    method Revoke(id: string, now: int) returns (r: Result<(), ()>)
      modifies this`clients
      ensures match AfterRevoke(old(Value()), id, now)
              case Ok(after) => Value() == after && r == Ok(())
              case Err(why) => Value() == old(Value()) && r == Err(why)
    {
      var found := Position(clients, id);
      if found.None? {
        return Err(());
      }
      var entry := clients[found.value];
      if entry.state == Revoked {
        return Ok(());
      }
      entry := entry.(state := Revoked, revokedAt := Some(now));
      entry := entry.(expiresAt := None, verifier := None);
      clients := clients[found.value := entry];
      return Ok(());
    }

    method Rename(id: string, name: string) returns (r: Result<(), ()>)
      modifies this`clients
      ensures match AfterRename(old(Value()), id, name)
              case Ok(after) => Value() == after && r == Ok(())
              case Err(why) => Value() == old(Value()) && r == Err(why)
    {
      var displayName := ValidDisplayName(name);
      if displayName.None? {
        return Err(());
      }
      var found := Position(clients, id);
      if found.None? {
        return Err(());
      }
      clients := clients[found.value := clients[found.value].(displayName := displayName.value)];
      return Ok(());
    }

    method ProvisionOperatorSecret(now: int, secret: string) returns (disclosed: string)
      modifies this`operator
      ensures Value() == AfterProvision(hash, old(Value()), now, secret) && disclosed == secret
    {
      var verifier := NewVerifier(hash, OperatorSecret, secret);
      operator := Some(OperatorEntry(verifier.digest, now));
      return secret;
    }

    method RemoveOperatorSecret()
      modifies this`operator
      ensures Value() == old(Value()).(operator := None)
    {
      operator := None;
    }
  }
}

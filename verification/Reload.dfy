/** What a candidate configuration changes: the restart keys that reject it and
    the live keys a reload names. A setting is modelled as the value it is
    shown as, except the two the shown view reduces: the listener's TLS files
    and the proxy URL. */
module Reload {
  import opened Wrappers

  /** A setting as it is serialised; settings that differ are serialised differently. */
  type Value(==, !new)

  type Url(==, !new)

  datatype ListenerTls = Off | Identity | Certificate(certificateFile: Value, privateKeyFile: Value)

  datatype Egress = Egress(mode: Value, addresses: Value, checkUrl: Value, cacheSeconds: Value, holdSeconds: Value)

  datatype DataPlane = DataPlane(
    listen: Value, tls: ListenerTls, upstreamOrigin: Value, maxConnections: Value, firstByteTimeout: Value,
    bodyIdleTimeout: Value, throttleAbsorb: Value, holdBudget: Value, telemetryPolicy: Value,
    corporateProxyUrl: Option<Url>, noProxy: Value, egress: Egress)

  datatype Ramp = Ramp(enabled: Value, initialConcurrency: Value, concurrencyStep: Value, stepInterval: Value, window: Value)

  datatype Selection = Selection(
    switchThreshold: Value, distributeSessions: Value, failover: Value, blockedModels: Value,
    priorities: Value, routes: Value, ramp: Ramp)

  datatype Quota = Quota(
    probeEnabled: Value, probeInterval: Value, probeDeadline: Value, revalidationFloor: Value, revalidationInterval: Value)

  datatype Clients = Clients(
    enrollmentLifetime: Value, advertisedBaseUrl: Value, advertisedProxyUrl: Value, baseUrlCaCertificate: Value, kitFile: Value)

  datatype Config = Config(
    refreshMargin: Value, refreshDeadline: Value, quota: Quota, selection: Selection, dataPlane: DataPlane,
    wireCaptureDirectory: Value, mitmEnabled: Value, mitmListen: Value, clients: Clients, stateFile: Value,
    logDirectory: Value, logLevel: Value, logMaxBytes: Value, logRetainedFiles: Value,
    auditMaxBytes: Value, auditRetainedFiles: Value)

  // ---------------------------------------------------------------- restart keys

  function CertificateOf(tls: ListenerTls): Option<Value> {
    if tls.Certificate? then Some(tls.certificateFile) else None
  }

  function PrivateKeyOf(tls: ListenerTls): Option<Value> {
    if tls.Certificate? then Some(tls.privateKeyFile) else None
  }

  function RestartRows(c: Config, n: Config): seq<(string, bool)> {
    var (d, e) := (c.dataPlane, n.dataPlane);
    [("data_plane.listen", d.listen != e.listen),
     ("data_plane.tls", (d.tls == Identity) != (e.tls == Identity)),
     ("data_plane.tls_certificate_file", CertificateOf(d.tls) != CertificateOf(e.tls)),
     ("data_plane.tls_private_key_file", PrivateKeyOf(d.tls) != PrivateKeyOf(e.tls)),
     ("data_plane.upstream_origin", d.upstreamOrigin != e.upstreamOrigin),
     ("data_plane.max_connections", d.maxConnections != e.maxConnections),
     ("data_plane.corporate_proxy_url", d.corporateProxyUrl != e.corporateProxyUrl),
     ("data_plane.no_proxy", d.noProxy != e.noProxy),
     ("diagnostics.wire_capture_directory", c.wireCaptureDirectory != n.wireCaptureDirectory),
     ("mitm.enabled", c.mitmEnabled != n.mitmEnabled),
     ("mitm.listen", c.mitmListen != n.mitmListen),
     ("storage.state_file", c.stateFile != n.stateFile),
     ("logging.directory", c.logDirectory != n.logDirectory),
     ("logging.max_bytes", c.logMaxBytes != n.logMaxBytes),
     ("logging.retained_files", c.logRetainedFiles != n.logRetainedFiles),
     ("audit.max_bytes", c.auditMaxBytes != n.auditMaxBytes),
     ("audit.retained_files", c.auditRetainedFiles != n.auditRetainedFiles)]
  }

  function Changed(rows: seq<(string, bool)>): (keys: seq<string>)
    ensures keys == [] <==> forall i :: 0 <= i < |rows| ==> !rows[i].1
  {
    if rows == [] then []
    else
      assert rows == [rows[0]] + rows[1..];
      if rows[0].1 then [rows[0].0] + Changed(rows[1..]) else Changed(rows[1..])
  }

  function ChangedRestartKeys(c: Config, n: Config): seq<string> {
    Changed(RestartRows(c, n))
  }

  // ---------------------------------------------------------------- the view

  datatype Leaf = Shown(value: Value) | Absent | Text(s: string) | Truth(b: bool)

  datatype View = ALeaf(leaf: Leaf) | AnObject(members: seq<Member>)

  datatype Member = Member(key: string, view: View)

  function V(v: Value): View {
    ALeaf(Shown(v))
  }

  function Maybe(v: Option<Value>): View {
    if v.Some? then V(v.value) else ALeaf(Absent)
  }

  /** An object of leaves. */
  function Record(keys: seq<string>, leaves: seq<View>): View
    requires |keys| == |leaves|
  {
    AnObject(seq(|keys|, i requires 0 <= i < |keys| => Member(keys[i], leaves[i])))
  }

  function NameOf(tls: ListenerTls): View {
    ALeaf(Text(match tls case Off => "off" case Identity => "identity" case Certificate(_, _) => "certificate"))
  }

  const PRESENCE := ["set", "path"]
  const EGRESS := ["mode", "addresses", "check_url", "cache_seconds", "hold_seconds"]
  const RAMP := ["enabled", "initial_concurrency", "concurrency_step", "step_interval_ms", "window_seconds"]
  const ACCOUNTS := ["refresh_margin_seconds", "refresh_deadline_seconds"]
  const QUOTA := ["probe_enabled", "probe_interval_seconds", "probe_deadline_seconds", "revalidation_floor_seconds",
                  "revalidation_interval_seconds"]
  const DIAGNOSTICS := ["wire_capture_directory"]
  const MITM := ["enabled", "listen"]
  const CLIENTS := ["enrollment_lifetime_seconds", "advertised_base_url", "advertised_proxy_url",
                    "base_url_ca_certificate_file", "kit_file"]
  const STORAGE := ["state_file"]
  const LOGGING := ["directory", "level", "max_bytes", "retained_files"]
  const AUDIT := ["max_bytes", "retained_files"]

  function EgressView(e: Egress): View {
    Record(EGRESS, [V(e.mode), V(e.addresses), V(e.checkUrl), V(e.cacheSeconds), V(e.holdSeconds)])
  }

  function DataPlaneView(d: DataPlane): View {
    AnObject([
      Member("listen", V(d.listen)), Member("tls", NameOf(d.tls)),
      Member("tls_certificate_file", Maybe(CertificateOf(d.tls))),
      Member("tls_private_key_file", Record(PRESENCE, [ALeaf(Truth(d.tls.Certificate?)), Maybe(PrivateKeyOf(d.tls))])),
      Member("upstream_origin", V(d.upstreamOrigin)), Member("max_connections", V(d.maxConnections)),
      Member("first_byte_timeout_seconds", V(d.firstByteTimeout)), Member("body_idle_timeout_seconds", V(d.bodyIdleTimeout)),
      Member("throttle_absorb_seconds", V(d.throttleAbsorb)), Member("hold_budget_seconds", V(d.holdBudget)),
      Member("telemetry_policy", V(d.telemetryPolicy)),
      Member("corporate_proxy_url", Record(PRESENCE, [ALeaf(Truth(d.corporateProxyUrl.Some?)), ALeaf(Absent)])),
      Member("no_proxy", V(d.noProxy)),
      Member("egress", EgressView(d.egress))])
  }

  function RampView(r: Ramp): View {
    Record(RAMP, [V(r.enabled), V(r.initialConcurrency), V(r.concurrencyStep), V(r.stepInterval), V(r.window)])
  }

  function SelectionView(s: Selection): View {
    AnObject([
      Member("switch_threshold", V(s.switchThreshold)), Member("distribute_sessions", V(s.distributeSessions)),
      Member("failover", V(s.failover)), Member("blocked_models", V(s.blockedModels)),
      Member("priorities", V(s.priorities)), Member("routes", V(s.routes)), Member("ramp", RampView(s.ramp))])
  }

  function QuotaView(q: Quota): View {
    Record(QUOTA, [V(q.probeEnabled), V(q.probeInterval), V(q.probeDeadline), V(q.revalidationFloor), V(q.revalidationInterval)])
  }

  function ClientsView(c: Clients): View {
    Record(CLIENTS, [V(c.enrollmentLifetime), V(c.advertisedBaseUrl), V(c.advertisedProxyUrl), V(c.baseUrlCaCertificate), V(c.kitFile)])
  }

  function EffectiveView(c: Config): View {
    AnObject([
      Member("version", ALeaf(Text("1"))),
      Member("accounts", Record(ACCOUNTS, [V(c.refreshMargin), V(c.refreshDeadline)])),
      Member("quota", QuotaView(c.quota)),
      Member("selection", SelectionView(c.selection)),
      Member("data_plane", DataPlaneView(c.dataPlane)),
      Member("diagnostics", Record(DIAGNOSTICS, [V(c.wireCaptureDirectory)])),
      Member("mitm", Record(MITM, [V(c.mitmEnabled), V(c.mitmListen)])),
      Member("clients", ClientsView(c.clients)),
      Member("storage", Record(STORAGE, [V(c.stateFile)])),
      Member("logging", Record(LOGGING, [V(c.logDirectory), V(c.logLevel), V(c.logMaxBytes), V(c.logRetainedFiles)])),
      Member("audit", Record(AUDIT, [V(c.auditMaxBytes), V(c.auditRetainedFiles)]))])
  }

  // ---------------------------------------------------------------- the differing leaves

  function Dotted(prefix: string, key: string): string {
    if prefix == "" then key else prefix + "." + key
  }

  /** A missing member reads as null. */
  function At(members: seq<Member>, key: string): View {
    if members == [] then ALeaf(Absent)
    else if members[0].key == key then members[0].view
    else At(members[1..], key)
  }

  function Diff(prefix: string, current: View, candidate: View): seq<string>
    decreases current, 1
  {
    if current.AnObject? && candidate.AnObject? then DiffMembers(prefix, current, |current.members|, candidate)
    else if current != candidate then [prefix]
    else []
  }

  function DiffMembers(prefix: string, current: View, n: nat, candidate: View): seq<string>
    requires current.AnObject? && candidate.AnObject? && n <= |current.members|
    decreases current, 0, n
  {
    if n == 0 then []
    else
      var m := current.members[n - 1];
      DiffMembers(prefix, current, n - 1, candidate) + Diff(Dotted(prefix, m.key), m.view, At(candidate.members, m.key))
  }

  method DiffInto(prefix: string, current: View, candidate: View, so: seq<string>) returns (out: seq<string>)
    ensures out == so + Diff(prefix, current, candidate)
    decreases current
  {
    hide At, Dotted;
    out := so;
    if current.AnObject? && candidate.AnObject? {
      for i := 0 to |current.members|
        invariant out == so + DiffMembers(prefix, current, i, candidate)
      {
        var m := current.members[i];
        ghost var before := DiffMembers(prefix, current, i, candidate);
        out := DiffInto(Dotted(prefix, m.key), m.view, At(candidate.members, m.key), out);
        Associates(so, before, Diff(Dotted(prefix, m.key), m.view, At(candidate.members, m.key)));
      }
    } else if current != candidate {
      out := out + [prefix];
    }
  }

  lemma Associates(a: seq<string>, b: seq<string>, c: seq<string>)
    ensures (a + b) + c == a + (b + c)
  {
  }

  function ChangedKeys(c: Config, n: Config): seq<string> {
    Diff("", EffectiveView(c), EffectiveView(n))
  }

  ghost predicate DistinctKeys(members: seq<Member>) {
    forall i, j :: 0 <= i < j < |members| ==> members[i].key != members[j].key
  }

  /** The same objects with the same keys, leaves under leaves. */
  ghost predicate SameShape(a: View, b: View)
    decreases a
  {
    if a.AnObject? then
      && b.AnObject? && |a.members| == |b.members| && DistinctKeys(a.members)
      && forall i :: 0 <= i < |a.members| ==> a.members[i].key == b.members[i].key && SameShape(a.members[i].view, b.members[i].view)
    else b.ALeaf?
  }

  lemma {:induction false} AtFinds(members: seq<Member>, i: nat)
    requires i < |members| && DistinctKeys(members)
    ensures At(members, members[i].key) == members[i].view
  {
    if i > 0 {
      assert members[0].key != members[i].key;
      AtFinds(members[1..], i - 1);
    }
  }

  /** Nothing differs exactly when the views are equal. */
  lemma {:induction false} NoDifferenceIffEqual(prefix: string, a: View, b: View)
    requires SameShape(a, b)
    ensures Diff(prefix, a, b) == [] <==> a == b
    decreases a, 1
  {
    if a.AnObject? {
      MembersDifferIff(prefix, a, |a.members|, b);
      if forall i :: 0 <= i < |a.members| ==> a.members[i].view == b.members[i].view {
        assert a.members == b.members;
      }
    }
  }

  lemma {:induction false} MembersDifferIff(prefix: string, a: View, n: nat, b: View)
    requires SameShape(a, b) && a.AnObject? && n <= |a.members|
    ensures DiffMembers(prefix, a, n, b) == [] <==> forall i :: 0 <= i < n ==> a.members[i].view == b.members[i].view
    decreases a, 0, n
  {
    if n > 0 {
      MembersDifferIff(prefix, a, n - 1, b);
      assert DistinctKeys(b.members);
      AtFinds(b.members, n - 1);
      NoDifferenceIffEqual(Dotted(prefix, a.members[n - 1].key), a.members[n - 1].view, b.members[n - 1].view);
    }
  }

  // ---------------------------------------------------------------- exactly the differing leaves

  /** The dotted form of a path of keys. */
  function JoinPath(path: seq<string>): string {
    if path == [] then "" else Dotted(JoinPath(path[..|path| - 1]), path[|path| - 1])
  }

  function LeafAt(v: View, path: seq<string>): Option<Leaf>
    decreases |path|
  {
    match v
    case ALeaf(leaf) => if path == [] then Some(leaf) else None
    case AnObject(members) => if path == [] || path[0] !in Keys(members) then None else LeafAt(At(members, path[0]), path[1..])
  }

  function Keys(members: seq<Member>): (keys: seq<string>)
    ensures |keys| == |members| && forall i :: 0 <= i < |members| ==> keys[i] == members[i].key
  {
    seq(|members|, i requires 0 <= i < |members| => members[i].key)
  }

  /** The paths of the leaves that differ, below `prefix`. */
  function DiffPaths(prefix: seq<string>, a: View, b: View): seq<seq<string>>
    decreases a, 1
  {
    if a.AnObject? && b.AnObject? then MemberDiffPaths(prefix, a, |a.members|, b)
    else if a != b then [prefix]
    else []
  }

  function MemberDiffPaths(prefix: seq<string>, a: View, n: nat, b: View): seq<seq<string>>
    requires a.AnObject? && b.AnObject? && n <= |a.members|
    decreases a, 0, n
  {
    if n == 0 then []
    else
      var m := a.members[n - 1];
      MemberDiffPaths(prefix, a, n - 1, b) + DiffPaths(prefix + [m.key], m.view, At(b.members, m.key))
  }

  function Joined(paths: seq<seq<string>>): (out: seq<string>)
    ensures |out| == |paths| && forall i :: 0 <= i < |paths| ==> out[i] == JoinPath(paths[i])
  {
    seq(|paths|, i requires 0 <= i < |paths| => JoinPath(paths[i]))
  }

  /** The reported keys are those paths, dotted, in table order. */
  lemma {:induction false} DiffIsDiffPaths(prefix: seq<string>, a: View, b: View)
    ensures Diff(JoinPath(prefix), a, b) == Joined(DiffPaths(prefix, a, b))
    decreases a, 1
  {
    if a.AnObject? && b.AnObject? {
      MemberDiffIsPaths(prefix, a, |a.members|, b);
    }
  }

  lemma {:induction false} MemberDiffIsPaths(prefix: seq<string>, a: View, n: nat, b: View)
    requires a.AnObject? && b.AnObject? && n <= |a.members|
    ensures DiffMembers(JoinPath(prefix), a, n, b) == Joined(MemberDiffPaths(prefix, a, n, b))
    decreases a, 0, n
  {
    if n > 0 {
      var m := a.members[n - 1];
      MemberDiffIsPaths(prefix, a, n - 1, b);
      assert (prefix + [m.key])[..|prefix|] == prefix;
      DiffIsDiffPaths(prefix + [m.key], m.view, At(b.members, m.key));
    }
  }

  ghost predicate Differs(a: View, b: View, path: seq<string>) {
    LeafAt(a, path).Some? && LeafAt(b, path).Some? && LeafAt(a, path) != LeafAt(b, path)
  }

  /** A path is listed exactly when it leads to a leaf that differs. */
  lemma {:induction false} ListedIffDiffers(prefix: seq<string>, a: View, b: View, path: seq<string>)
    requires SameShape(a, b)
    ensures prefix + path in DiffPaths(prefix, a, b) <==> Differs(a, b, path)
    decreases a, 1
  {
    if a.ALeaf? {
      if path == [] {
        assert prefix + path == prefix;
      } else {
        assert |prefix + path| != |prefix|;
      }
    } else {
      ListedMembers(prefix, a, |a.members|, b, path);
      if path != [] && path[0] in Keys(a.members) {
        var i :| 0 <= i < |a.members| && a.members[i].key == path[0];
        AtFinds(a.members, i);
        assert DistinctKeys(b.members);
        AtFinds(b.members, i);
        assert Keys(b.members)[i] == path[0];
      }
      assert Keys(b.members) == Keys(a.members);
    }
  }

  ghost predicate BelowMember(a: View, n: nat, b: View, path: seq<string>)
    requires SameShape(a, b) && a.AnObject? && n <= |a.members|
  {
    path != [] && exists i :: 0 <= i < n && a.members[i].key == path[0] && Differs(a.members[i].view, b.members[i].view, path[1..])
  }

  lemma {:induction false} ListedMembers(prefix: seq<string>, a: View, n: nat, b: View, path: seq<string>)
    requires SameShape(a, b) && a.AnObject? && n <= |a.members|
    ensures prefix + path in MemberDiffPaths(prefix, a, n, b) <==> BelowMember(a, n, b, path)
    decreases a, 0, n
  {
    if n > 0 {
      var m := a.members[n - 1];
      ListedMembers(prefix, a, n - 1, b, path);
      assert DistinctKeys(b.members);
      AtFinds(b.members, n - 1);
      var deeper := DiffPaths(prefix + [m.key], m.view, b.members[n - 1].view);
      PathsExtend(prefix + [m.key], m.view, b.members[n - 1].view);
      if path != [] && path[0] == m.key {
        assert prefix + path == (prefix + [m.key]) + path[1..];
        ListedIffDiffers(prefix + [m.key], m.view, b.members[n - 1].view, path[1..]);
      } else {
        assert path != [] ==> (prefix + path)[|prefix|] == path[0];
        assert !(prefix + [m.key] <= prefix + path);
      }
    }
  }

  lemma {:induction false} PathsExtend(prefix: seq<string>, a: View, b: View)
    ensures forall p :: p in DiffPaths(prefix, a, b) ==> prefix <= p
    decreases a, 1
  {
    if a.AnObject? && b.AnObject? {
      MemberPathsExtend(prefix, a, |a.members|, b);
    }
  }

  lemma {:induction false} MemberPathsExtend(prefix: seq<string>, a: View, n: nat, b: View)
    requires a.AnObject? && b.AnObject? && n <= |a.members|
    ensures forall p :: p in MemberDiffPaths(prefix, a, n, b) ==> prefix <= p
    decreases a, 0, n
  {
    if n > 0 {
      var m := a.members[n - 1];
      MemberPathsExtend(prefix, a, n - 1, b);
      PathsExtend(prefix + [m.key], m.view, At(b.members, m.key));
      forall p | p in DiffPaths(prefix + [m.key], m.view, At(b.members, m.key))
        ensures prefix <= p
      {
        assert prefix + [m.key] <= p;
        assert prefix == (prefix + [m.key])[..|prefix|];
      }
    }
  }

  /** The view with its listed leaves taken from the candidate. */
  function WithLeaves(v: View, prefix: seq<string>, listed: seq<seq<string>>, candidate: View): View {
    match v
    case ALeaf(leaf) =>
      if prefix in listed && LeafAt(candidate, prefix).Some? then ALeaf(LeafAt(candidate, prefix).value) else v
    case AnObject(members) =>
      AnObject(seq(|members|, i requires 0 <= i < |members| =>
        Member(members[i].key, WithLeaves(members[i].view, prefix + [members[i].key], listed, candidate))))
  }

  /** Taking over the listed leaves, and no others, gives the candidate's view. */
  lemma ReplacingListedGivesCandidate(a: View, b: View)
    requires SameShape(a, b)
    ensures WithLeaves(a, [], DiffPaths([], a, b), b) == b
  {
    forall path: seq<string>
      ensures [] + path == path && (path in DiffPaths([], a, b) <==> Differs(a, b, path))
    {
      ListedIffDiffers([], a, b, path);
      assert [] + path == path;
    }
    LeavesTaken(a, b, [], DiffPaths([], a, b), b);
  }

  lemma {:induction false} LeavesTaken(a: View, b: View, prefix: seq<string>, listed: seq<seq<string>>, candidate: View)
    requires SameShape(a, b)
    requires forall path :: LeafAt(candidate, prefix + path) == LeafAt(b, path)
    requires forall path :: prefix + path in listed <==> Differs(a, b, path)
    ensures WithLeaves(a, prefix, listed, candidate) == b
    decreases a
  {
    if a.ALeaf? {
      assert prefix + [] == prefix;
    } else {
      forall i | 0 <= i < |a.members|
        ensures WithLeaves(a.members[i].view, prefix + [a.members[i].key], listed, candidate) == b.members[i].view
      {
        var key := a.members[i].key;
        forall path
          ensures LeafAt(candidate, prefix + [key] + path) == LeafAt(b.members[i].view, path)
          ensures prefix + [key] + path in listed <==> Differs(a.members[i].view, b.members[i].view, path)
        {
          assert prefix + [key] + path == prefix + ([key] + path);
          LeafBelow(a, i, path);
          assert DistinctKeys(b.members);
          LeafBelow(b, i, path);
        }
        LeavesTaken(a.members[i].view, b.members[i].view, prefix + [key], listed, candidate);
      }
      assert WithLeaves(a, prefix, listed, candidate).members == b.members;
    }
  }

  lemma LeafBelow(v: View, i: nat, path: seq<string>)
    requires v.AnObject? && i < |v.members| && DistinctKeys(v.members)
    ensures LeafAt(v, [v.members[i].key] + path) == LeafAt(v.members[i].view, path)
  {
    AtFinds(v.members, i);
    assert Keys(v.members)[i] == v.members[i].key;
    assert ([v.members[i].key] + path)[1..] == path;
  }

  // ---------------------------------------------------------------- two configurations

  /** The three rows tell apart all nine pairs of listener settings. */
  lemma TlsRowsDecide(a: ListenerTls, b: ListenerTls)
    ensures a == b <==>
            && (a == Identity) == (b == Identity)
            && CertificateOf(a) == CertificateOf(b) && PrivateKeyOf(a) == PrivateKeyOf(b)
  {
    match a
    case Off =>
    case Identity =>
    case Certificate(_, _) =>
  }

  predicate EqualButLive(c: Config, n: Config) {
    && c.dataPlane == n.dataPlane.(firstByteTimeout := c.dataPlane.firstByteTimeout, bodyIdleTimeout := c.dataPlane.bodyIdleTimeout,
                                   throttleAbsorb := c.dataPlane.throttleAbsorb, holdBudget := c.dataPlane.holdBudget,
                                   telemetryPolicy := c.dataPlane.telemetryPolicy, egress := c.dataPlane.egress)
    && c == n.(refreshMargin := c.refreshMargin, refreshDeadline := c.refreshDeadline, quota := c.quota, selection := c.selection,
               dataPlane := c.dataPlane, clients := c.clients, logLevel := c.logLevel)
  }

  /** No restart key changed exactly when the two agree in everything but the
      settings a reload may change live. */
  lemma NoRestartKeyIff(c: Config, n: Config)
    ensures ChangedRestartKeys(c, n) == [] <==> EqualButLive(c, n)
  {
    var rows := RestartRows(c, n);
    TlsRowsDecide(c.dataPlane.tls, n.dataPlane.tls);
    if forall i :: 0 <= i < |rows| ==> !rows[i].1 {
      assert !rows[0].1 && !rows[1].1 && !rows[2].1 && !rows[3].1 && !rows[4].1 && !rows[5].1 && !rows[6].1 && !rows[7].1
          && !rows[8].1 && !rows[9].1 && !rows[10].1 && !rows[11].1 && !rows[12].1 && !rows[13].1 && !rows[14].1
          && !rows[15].1 && !rows[16].1;
    }
  }

  ghost predicate Apart(keys: seq<string>) {
    forall i, j :: 0 <= i < j < |keys| ==> keys[i] != keys[j]
  }

  lemma KeysAreApart()
    ensures Apart(PRESENCE) && Apart(EGRESS) && Apart(RAMP) && Apart(ACCOUNTS) && Apart(QUOTA) && Apart(DIAGNOSTICS)
    ensures Apart(MITM) && Apart(CLIENTS) && Apart(STORAGE) && Apart(LOGGING) && Apart(AUDIT)
  {
    assert EGRESS[0][0] == 'm' && EGRESS[1][0] == 'a' && |EGRESS[2]| == 9 && |EGRESS[3]| == 13 && |EGRESS[4]| == 12 && |EGRESS[1]| == 9;
    assert EGRESS[2][0] == 'c';
    assert RAMP[0][0] == 'e' && RAMP[1][0] == 'i' && RAMP[2][0] == 'c' && RAMP[3][0] == 's' && RAMP[4][0] == 'w';
    assert |ACCOUNTS[0]| == 22 && |ACCOUNTS[1]| == 24;
    assert |QUOTA[0]| == 13 && |QUOTA[1]| == 22 && |QUOTA[2]| == 22 && |QUOTA[3]| == 26 && |QUOTA[4]| == 29;
    assert QUOTA[1][6] == 'i' && QUOTA[2][6] == 'd';
    assert |CLIENTS[0]| == 27 && |CLIENTS[1]| == 19 && |CLIENTS[2]| == 20 && |CLIENTS[3]| == 28 && |CLIENTS[4]| == 8;
    assert LOGGING[0][0] == 'd' && LOGGING[1][0] == 'l' && LOGGING[2][0] == 'm' && LOGGING[3][0] == 'r';
    assert |MITM[0]| == 7 && |MITM[1]| == 6 && |AUDIT[0]| == 9 && |AUDIT[1]| == 14;
  }

  lemma RecordsShareShape(keys: seq<string>, a: seq<View>, b: seq<View>)
    requires |keys| == |a| == |b| && Apart(keys)
    requires forall i :: 0 <= i < |keys| ==> a[i].ALeaf? && b[i].ALeaf?
    ensures SameShape(Record(keys, a), Record(keys, b))
  {
  }

  lemma RecordsEqual(keys: seq<string>, a: seq<View>, b: seq<View>)
    requires |keys| == |a| == |b| && Record(keys, a) == Record(keys, b)
    ensures a == b
  {
    forall i | 0 <= i < |keys|
      ensures a[i] == b[i]
    {
      assert Record(keys, a).members[i] == Record(keys, b).members[i];
    }
  }

  lemma DataPlaneKeysAreDistinct(d: DataPlane)
    ensures DistinctKeys(DataPlaneView(d).members)
  {
    hide V, NameOf, Maybe, Record, EgressView;
    var v := DataPlaneView(d).members;
    assert |v[0].key| == 6 && |v[1].key| == 3 && |v[2].key| == 20 && |v[3].key| == 20 && |v[4].key| == 15 && |v[5].key| == 15
        && |v[6].key| == 26 && |v[7].key| == 25 && |v[8].key| == 23 && |v[9].key| == 19 && |v[10].key| == 16
        && |v[11].key| == 19 && |v[12].key| == 8 && |v[13].key| == 6;
    assert v[0].key[0] == 'l' && v[13].key[0] == 'e' && v[2].key[4] == 'c' && v[3].key[4] == 'p';
    assert v[4].key[0] == 'u' && v[5].key[0] == 'm' && v[9].key[0] == 'h' && v[11].key[0] == 'c';
  }

  lemma SelectionKeysAreDistinct(s: Selection)
    ensures DistinctKeys(SelectionView(s).members)
  {
    var v := SelectionView(s).members;
    assert |v[0].key| == 16 && |v[1].key| == 19 && |v[2].key| == 8 && |v[3].key| == 14 && |v[4].key| == 10 && |v[5].key| == 6
        && |v[6].key| == 4;
  }

  lemma ViewKeysAreDistinct(c: Config)
    ensures DistinctKeys(EffectiveView(c).members)
  {
    hide V, Record, QuotaView, SelectionView, DataPlaneView, ClientsView;
    var v := EffectiveView(c).members;
    assert |v[0].key| == 7 && |v[1].key| == 8 && |v[2].key| == 5 && |v[3].key| == 9 && |v[4].key| == 10 && |v[5].key| == 11
        && |v[6].key| == 4 && |v[7].key| == 7 && |v[8].key| == 7 && |v[9].key| == 7 && |v[10].key| == 5;
    assert v[0].key[0] == 'v' && v[7].key[0] == 'c' && v[8].key[0] == 's' && v[9].key[0] == 'l';
    assert v[2].key[0] == 'q' && v[10].key[0] == 'a';
  }

  lemma DataPlanesShareShape(d: DataPlane, e: DataPlane)
    ensures SameShape(DataPlaneView(d), DataPlaneView(e))
  {
    hide DistinctKeys, Record, Apart;
    KeysAreApart();
    DataPlaneKeysAreDistinct(d);
    RecordsShareShape(PRESENCE, [ALeaf(Truth(d.tls.Certificate?)), Maybe(PrivateKeyOf(d.tls))],
                      [ALeaf(Truth(e.tls.Certificate?)), Maybe(PrivateKeyOf(e.tls))]);
    RecordsShareShape(PRESENCE, [ALeaf(Truth(d.corporateProxyUrl.Some?)), ALeaf(Absent)],
                      [ALeaf(Truth(e.corporateProxyUrl.Some?)), ALeaf(Absent)]);
    EgressesShareShape(d.egress, e.egress);
    hide Maybe, EgressView;
    var v, w := DataPlaneView(d), DataPlaneView(e);
    forall i | 0 <= i < 14
      ensures v.members[i].key == w.members[i].key && SameShape(v.members[i].view, w.members[i].view)
    {
      if i != 3 && i != 11 && i != 13 {
        LeafMembers(d, i);
        LeafMembers(e, i);
      }
    }
  }

  lemma LeafMembers(d: DataPlane, i: nat)
    requires i < 14 && i != 3 && i != 11 && i != 13
    ensures DataPlaneView(d).members[i].view.ALeaf?
  {
    hide Record, EgressView;
  }

  lemma EgressesShareShape(a: Egress, b: Egress)
    ensures SameShape(EgressView(a), EgressView(b))
  {
    hide Record, Apart;
    KeysAreApart();
    RecordsShareShape(EGRESS, [V(a.mode), V(a.addresses), V(a.checkUrl), V(a.cacheSeconds), V(a.holdSeconds)],
                      [V(b.mode), V(b.addresses), V(b.checkUrl), V(b.cacheSeconds), V(b.holdSeconds)]);
  }

  lemma SelectionsShareShape(s: Selection, t: Selection)
    ensures SameShape(SelectionView(s), SelectionView(t))
  {
    hide DistinctKeys, Record, Apart;
    KeysAreApart();
    SelectionKeysAreDistinct(s);
    var r, q := s.ramp, t.ramp;
    RecordsShareShape(RAMP, [V(r.enabled), V(r.initialConcurrency), V(r.concurrencyStep), V(r.stepInterval), V(r.window)],
                      [V(q.enabled), V(q.initialConcurrency), V(q.concurrencyStep), V(q.stepInterval), V(q.window)]);
  }

  lemma QuotasShareShape(q: Quota, r: Quota)
    ensures SameShape(QuotaView(q), QuotaView(r))
  {
    hide Record, Apart;
    KeysAreApart();
    RecordsShareShape(QUOTA, [V(q.probeEnabled), V(q.probeInterval), V(q.probeDeadline), V(q.revalidationFloor), V(q.revalidationInterval)],
                      [V(r.probeEnabled), V(r.probeInterval), V(r.probeDeadline), V(r.revalidationFloor), V(r.revalidationInterval)]);
  }

  lemma ClientSettingsShareShape(a: Clients, b: Clients)
    ensures SameShape(ClientsView(a), ClientsView(b))
  {
    hide Record, Apart;
    KeysAreApart();
    RecordsShareShape(CLIENTS, [V(a.enrollmentLifetime), V(a.advertisedBaseUrl), V(a.advertisedProxyUrl), V(a.baseUrlCaCertificate), V(a.kitFile)],
                      [V(b.enrollmentLifetime), V(b.advertisedBaseUrl), V(b.advertisedProxyUrl), V(b.baseUrlCaCertificate), V(b.kitFile)]);
  }

  lemma SmallRecordsShareShape(c: Config, n: Config)
    ensures SameShape(Record(ACCOUNTS, [V(c.refreshMargin), V(c.refreshDeadline)]), Record(ACCOUNTS, [V(n.refreshMargin), V(n.refreshDeadline)]))
    ensures SameShape(Record(DIAGNOSTICS, [V(c.wireCaptureDirectory)]), Record(DIAGNOSTICS, [V(n.wireCaptureDirectory)]))
    ensures SameShape(Record(MITM, [V(c.mitmEnabled), V(c.mitmListen)]), Record(MITM, [V(n.mitmEnabled), V(n.mitmListen)]))
    ensures SameShape(Record(STORAGE, [V(c.stateFile)]), Record(STORAGE, [V(n.stateFile)]))
    ensures SameShape(Record(LOGGING, [V(c.logDirectory), V(c.logLevel), V(c.logMaxBytes), V(c.logRetainedFiles)]),
                      Record(LOGGING, [V(n.logDirectory), V(n.logLevel), V(n.logMaxBytes), V(n.logRetainedFiles)]))
    ensures SameShape(Record(AUDIT, [V(c.auditMaxBytes), V(c.auditRetainedFiles)]), Record(AUDIT, [V(n.auditMaxBytes), V(n.auditRetainedFiles)]))
  {
    hide Record, Apart;
    KeysAreApart();
    RecordsShareShape(ACCOUNTS, [V(c.refreshMargin), V(c.refreshDeadline)], [V(n.refreshMargin), V(n.refreshDeadline)]);
    RecordsShareShape(DIAGNOSTICS, [V(c.wireCaptureDirectory)], [V(n.wireCaptureDirectory)]);
    RecordsShareShape(MITM, [V(c.mitmEnabled), V(c.mitmListen)], [V(n.mitmEnabled), V(n.mitmListen)]);
    RecordsShareShape(STORAGE, [V(c.stateFile)], [V(n.stateFile)]);
    RecordsShareShape(LOGGING, [V(c.logDirectory), V(c.logLevel), V(c.logMaxBytes), V(c.logRetainedFiles)],
                      [V(n.logDirectory), V(n.logLevel), V(n.logMaxBytes), V(n.logRetainedFiles)]);
    RecordsShareShape(AUDIT, [V(c.auditMaxBytes), V(c.auditRetainedFiles)], [V(n.auditMaxBytes), V(n.auditRetainedFiles)]);
  }

  /** Two views always have the same objects and the same keys. */
  lemma ViewsShareShape(c: Config, n: Config)
    ensures SameShape(EffectiveView(c), EffectiveView(n))
  {
    hide SelectionView, DataPlaneView, QuotaView, ClientsView, Record, DistinctKeys;
    ViewKeysAreDistinct(c);
    SmallRecordsShareShape(c, n);
    QuotasShareShape(c.quota, n.quota);
    SelectionsShareShape(c.selection, n.selection);
    DataPlanesShareShape(c.dataPlane, n.dataPlane);
    ClientSettingsShareShape(c.clients, n.clients);
  }

  // ---------------------------------------------------------------- what the view shows

  lemma SelectionIsShown(s: Selection, t: Selection)
    requires SelectionView(s) == SelectionView(t)
    ensures s == t
  {
    hide Record;
    var v, w := SelectionView(s).members, SelectionView(t).members;
    assert v[0] == w[0] && v[1] == w[1] && v[2] == w[2] && v[3] == w[3] && v[4] == w[4] && v[5] == w[5] && v[6] == w[6];
    var r, q := s.ramp, t.ramp;
    var x := [V(r.enabled), V(r.initialConcurrency), V(r.concurrencyStep), V(r.stepInterval), V(r.window)];
    var y := [V(q.enabled), V(q.initialConcurrency), V(q.concurrencyStep), V(q.stepInterval), V(q.window)];
    RecordsEqual(RAMP, x, y);
    assert x[0] == y[0] && x[1] == y[1] && x[2] == y[2] && x[3] == y[3] && x[4] == y[4];
  }

  lemma EgressIsShown(a: Egress, b: Egress)
    requires EgressView(a) == EgressView(b)
    ensures a == b
  {
    hide Record;
    var x := [V(a.mode), V(a.addresses), V(a.checkUrl), V(a.cacheSeconds), V(a.holdSeconds)];
    var y := [V(b.mode), V(b.addresses), V(b.checkUrl), V(b.cacheSeconds), V(b.holdSeconds)];
    RecordsEqual(EGRESS, x, y);
    assert x[0] == y[0] && x[1] == y[1] && x[2] == y[2] && x[3] == y[3] && x[4] == y[4];
  }

  lemma LiveDataPlaneIsShown(d: DataPlane, e: DataPlane)
    requires DataPlaneView(d) == DataPlaneView(e)
    ensures d.firstByteTimeout == e.firstByteTimeout && d.bodyIdleTimeout == e.bodyIdleTimeout
    ensures d.throttleAbsorb == e.throttleAbsorb && d.holdBudget == e.holdBudget
    ensures d.telemetryPolicy == e.telemetryPolicy && d.egress == e.egress
  {
    hide Record;
    var v, w := DataPlaneView(d).members, DataPlaneView(e).members;
    assert v[6] == w[6] && v[7] == w[7] && v[8] == w[8] && v[9] == w[9] && v[10] == w[10] && v[13] == w[13];
    EgressIsShown(d.egress, e.egress);
  }

  lemma QuotaIsShown(q: Quota, r: Quota)
    requires QuotaView(q) == QuotaView(r)
    ensures q == r
  {
    hide Record;
    var x := [V(q.probeEnabled), V(q.probeInterval), V(q.probeDeadline), V(q.revalidationFloor), V(q.revalidationInterval)];
    var y := [V(r.probeEnabled), V(r.probeInterval), V(r.probeDeadline), V(r.revalidationFloor), V(r.revalidationInterval)];
    RecordsEqual(QUOTA, x, y);
    assert x[0] == y[0] && x[1] == y[1] && x[2] == y[2] && x[3] == y[3] && x[4] == y[4];
  }

  lemma ClientSettingsAreShown(a: Clients, b: Clients)
    requires ClientsView(a) == ClientsView(b)
    ensures a == b
  {
    hide Record;
    var x := [V(a.enrollmentLifetime), V(a.advertisedBaseUrl), V(a.advertisedProxyUrl), V(a.baseUrlCaCertificate), V(a.kitFile)];
    var y := [V(b.enrollmentLifetime), V(b.advertisedBaseUrl), V(b.advertisedProxyUrl), V(b.baseUrlCaCertificate), V(b.kitFile)];
    RecordsEqual(CLIENTS, x, y);
    assert x[0] == y[0] && x[1] == y[1] && x[2] == y[2] && x[3] == y[3] && x[4] == y[4];
  }

  lemma LiveSettingsAreShown(c: Config, n: Config)
    requires EffectiveView(c) == EffectiveView(n)
    ensures c.refreshMargin == n.refreshMargin && c.refreshDeadline == n.refreshDeadline && c.quota == n.quota
    ensures c.selection == n.selection && c.clients == n.clients && c.logLevel == n.logLevel
    ensures DataPlaneView(c.dataPlane) == DataPlaneView(n.dataPlane)
  {
    hide Record, SelectionView, DataPlaneView, QuotaView, ClientsView;
    var v, w := EffectiveView(c).members, EffectiveView(n).members;
    assert v[1] == w[1] && v[2] == w[2] && v[3] == w[3] && v[4] == w[4] && v[7] == w[7] && v[9] == w[9];
    var a, b := [V(c.refreshMargin), V(c.refreshDeadline)], [V(n.refreshMargin), V(n.refreshDeadline)];
    RecordsEqual(ACCOUNTS, a, b);
    assert a[0] == b[0] && a[1] == b[1];
    var x := [V(c.logDirectory), V(c.logLevel), V(c.logMaxBytes), V(c.logRetainedFiles)];
    var y := [V(n.logDirectory), V(n.logLevel), V(n.logMaxBytes), V(n.logRetainedFiles)];
    RecordsEqual(LOGGING, x, y);
    assert x[1] == y[1];
    QuotaIsShown(c.quota, n.quota);
    SelectionIsShown(c.selection, n.selection);
    ClientSettingsAreShown(c.clients, n.clients);
  }

  /** A candidate changes no restart key and no live key exactly when it is the
      configuration in force, hidden settings included. */
  lemma NothingChangedIffEqual(c: Config, n: Config)
    ensures ChangedRestartKeys(c, n) == [] && ChangedKeys(c, n) == [] <==> c == n
  {
    hide EffectiveView, RestartRows, Changed;
    NoRestartKeyIff(c, n);
    ViewsShareShape(c, n);
    NoDifferenceIffEqual("", EffectiveView(c), EffectiveView(n));
    if EffectiveView(c) == EffectiveView(n) {
      LiveSettingsAreShown(c, n);
      LiveDataPlaneIsShown(c.dataPlane, n.dataPlane);
    }
  }
}

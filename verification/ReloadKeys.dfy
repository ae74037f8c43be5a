/** The name a change is reported under: each restart key is listed exactly when
    its own setting changed, and each setting is shown at its own path, which is
    what `Reload.ListedIffDiffers` then reports. */
module ReloadKeys {
  import opened Wrappers
  import opened Reload

  // ---------------------------------------------------------------- restart keys

  ghost predicate DistinctNames(rows: seq<(string, bool)>) {
    forall i, j :: 0 <= i < j < |rows| ==> rows[i].0 != rows[j].0
  }

  lemma {:induction false} ChangedOnlyHasItsRows(rows: seq<(string, bool)>, key: string)
    ensures key in Changed(rows) <==> exists i :: 0 <= i < |rows| && rows[i].0 == key && rows[i].1
  {
    if rows != [] {
      ChangedOnlyHasItsRows(rows[1..], key);
      assert forall i :: 0 < i < |rows| ==> rows[i] == rows[1..][i - 1];
      if exists i :: 0 <= i < |rows[1..]| && rows[1..][i].0 == key && rows[1..][i].1 {
        var i :| 0 <= i < |rows[1..]| && rows[1..][i].0 == key && rows[1..][i].1;
        assert rows[i + 1] == rows[1..][i];
      }
    }
  }

  lemma ChangedHasRow(rows: seq<(string, bool)>, i: nat)
    requires DistinctNames(rows) && i < |rows|
    ensures rows[i].0 in Changed(rows) <==> rows[i].1
  {
    ChangedOnlyHasItsRows(rows, rows[i].0);
  }

  lemma RestartNamesAreDistinct(c: Config, n: Config)
    ensures |RestartRows(c, n)| == 17 && DistinctNames(RestartRows(c, n))
  {
    var r := RestartRows(c, n);
    hide CertificateOf, PrivateKeyOf;
    assert |r[0].0| == 17 && |r[1].0| == 14 && |r[2].0| == 31 && |r[3].0| == 31 && |r[4].0| == 26 && |r[5].0| == 26
        && |r[6].0| == 30 && |r[7].0| == 19 && |r[8].0| == 34 && |r[9].0| == 12 && |r[10].0| == 11 && |r[11].0| == 18
        && |r[12].0| == 17 && |r[13].0| == 17 && |r[14].0| == 22 && |r[15].0| == 15 && |r[16].0| == 20;
    assert r[0].0[0] == 'd' && r[12].0[0] == 'l' && r[12].0[8] == 'd' && r[13].0[0] == 'l' && r[13].0[8] == 'm';
    assert r[2].0[15] == 'c' && r[3].0[15] == 'p' && r[4].0[11] == 'u' && r[5].0[11] == 'm';
  }

  /** A restart key is listed exactly when its setting changed: the certificate's
      two keys when the files did, the listener's when it became or stopped being
      the identity's. */
  lemma RestartKeyIff(c: Config, n: Config)
    ensures var (keys, d, e) := (ChangedRestartKeys(c, n), c.dataPlane, n.dataPlane);
            && ("data_plane.listen" in keys <==> d.listen != e.listen)
            && ("data_plane.tls" in keys <==> (d.tls.Identity? && !e.tls.Identity?) || (e.tls.Identity? && !d.tls.Identity?))
            && ("data_plane.tls_certificate_file" in keys <==> CertificateOf(d.tls) != CertificateOf(e.tls))
            && ("data_plane.tls_private_key_file" in keys <==> PrivateKeyOf(d.tls) != PrivateKeyOf(e.tls))
            && ("data_plane.upstream_origin" in keys <==> d.upstreamOrigin != e.upstreamOrigin)
            && ("data_plane.max_connections" in keys <==> d.maxConnections != e.maxConnections)
            && ("data_plane.corporate_proxy_url" in keys <==> d.corporateProxyUrl != e.corporateProxyUrl)
            && ("data_plane.no_proxy" in keys <==> d.noProxy != e.noProxy)
            && ("diagnostics.wire_capture_directory" in keys <==> c.wireCaptureDirectory != n.wireCaptureDirectory)
            && ("mitm.enabled" in keys <==> c.mitmEnabled != n.mitmEnabled)
            && ("mitm.listen" in keys <==> c.mitmListen != n.mitmListen)
            && ("storage.state_file" in keys <==> c.stateFile != n.stateFile)
            && ("logging.directory" in keys <==> c.logDirectory != n.logDirectory)
            && ("logging.max_bytes" in keys <==> c.logMaxBytes != n.logMaxBytes)
            && ("logging.retained_files" in keys <==> c.logRetainedFiles != n.logRetainedFiles)
            && ("audit.max_bytes" in keys <==> c.auditMaxBytes != n.auditMaxBytes)
            && ("audit.retained_files" in keys <==> c.auditRetainedFiles != n.auditRetainedFiles)
  {
    var rows := RestartRows(c, n);
    RestartNamesAreDistinct(c, n);
    hide Changed, DistinctNames, CertificateOf, PrivateKeyOf;
    ChangedHasRow(rows, 0);
    ChangedHasRow(rows, 1);
    ChangedHasRow(rows, 2);
    ChangedHasRow(rows, 3);
    ChangedHasRow(rows, 4);
    ChangedHasRow(rows, 5);
    ChangedHasRow(rows, 6);
    ChangedHasRow(rows, 7);
    ChangedHasRow(rows, 8);
    ChangedHasRow(rows, 9);
    ChangedHasRow(rows, 10);
    ChangedHasRow(rows, 11);
    ChangedHasRow(rows, 12);
    ChangedHasRow(rows, 13);
    ChangedHasRow(rows, 14);
    ChangedHasRow(rows, 15);
    ChangedHasRow(rows, 16);
  }

  // ---------------------------------------------------------------- the paths of the view

  /** The leaf two keys down. */
  lemma LeafTwoDown(v: View, i: nat, j: nat)
    requires v.AnObject? && DistinctKeys(v.members) && i < |v.members|
    requires v.members[i].view.AnObject? && DistinctKeys(v.members[i].view.members) && j < |v.members[i].view.members|
    requires v.members[i].view.members[j].view.ALeaf?
    ensures LeafAt(v, [v.members[i].key, v.members[i].view.members[j].key]) == Some(v.members[i].view.members[j].view.leaf)
  {
    hide DistinctKeys;
    var path := [v.members[i].key, v.members[i].view.members[j].key];
    assert path[1..] == [path[1]] && path[1..][1..] == [];
    KeyedLeaf(v, i, path);
    KeyedLeaf(v.members[i].view, j, path[1..]);
  }

  lemma KeyedLeaf(v: View, i: nat, path: seq<string>)
    requires v.AnObject? && DistinctKeys(v.members) && i < |v.members| && path != [] && path[0] == v.members[i].key
    ensures LeafAt(v, path) == LeafAt(v.members[i].view, path[1..])
  {
    AtFinds(v.members, i);
    assert Keys(v.members)[i] == path[0];
  }

  lemma LeafThreeDown(v: View, i: nat, j: nat, k: nat)
    requires v.AnObject? && DistinctKeys(v.members) && i < |v.members|
    requires v.members[i].view.AnObject? && DistinctKeys(v.members[i].view.members) && j < |v.members[i].view.members|
    requires var w := v.members[i].view.members[j].view;
             w.AnObject? && DistinctKeys(w.members) && k < |w.members| && w.members[k].view.ALeaf?
    ensures var w := v.members[i].view.members[j];
            LeafAt(v, [v.members[i].key, w.key, w.view.members[k].key]) == Some(w.view.members[k].view.leaf)
  {
    hide DistinctKeys;
    var w := v.members[i].view.members[j];
    var path := [v.members[i].key, w.key, w.view.members[k].key];
    assert path[1..] == [path[1], path[2]] && path[1..][1..] == [path[2]];
    KeyedLeaf(v, i, path);
    LeafTwoDownFrom(v.members[i].view, j, k, path[1..]);
  }

  lemma LeafTwoDownFrom(v: View, j: nat, k: nat, path: seq<string>)
    requires v.AnObject? && DistinctKeys(v.members) && j < |v.members|
    requires v.members[j].view.AnObject? && DistinctKeys(v.members[j].view.members) && k < |v.members[j].view.members|
    requires v.members[j].view.members[k].view.ALeaf?
    requires path == [v.members[j].key, v.members[j].view.members[k].key]
    ensures LeafAt(v, path) == Some(v.members[j].view.members[k].view.leaf)
  {
    LeafTwoDown(v, j, k);
  }

  /** A record two keys down. */
  lemma RecordShown(v: View, i: nat, keys: seq<string>, leaves: seq<View>, j: nat)
    requires v.AnObject? && DistinctKeys(v.members) && i < |v.members| && Apart(keys)
    requires j < |keys| == |leaves| && v.members[i].view == Record(keys, leaves) && leaves[j].ALeaf?
    ensures LeafAt(v, [v.members[i].key, keys[j]]) == Some(leaves[j].leaf)
  {
    RecordIsDistinct(keys, leaves);
    hide DistinctKeys, Apart;
    LeafTwoDown(v, i, j);
  }

  lemma RecordIsDistinct(keys: seq<string>, leaves: seq<View>)
    requires |keys| == |leaves| && Apart(keys)
    ensures DistinctKeys(Record(keys, leaves).members)
  {
  }

  /** The version is shown as a constant, so it never differs. */
  lemma VersionIsShown(c: Config)
    ensures LeafAt(EffectiveView(c), ["version"]) == Some(Text("1"))
  {
    var v := EffectiveView(c);
    var version := ALeaf(Text("1"));
    assert v.members[0] == Member("version", version);
    assert Keys(v.members)[0] == "version" && ["version"][1..] == [];
    hide Record, SelectionView, QuotaView, DataPlaneView, ClientsView;
    assert At(v.members, "version") == version && LeafAt(version, []) == Some(Text("1"));
  }

  /** Each of these settings is shown at the path of its own name. */
  lemma GeneralSettingsAreShown(c: Config)
    ensures var v := EffectiveView(c);
            && LeafAt(v, ["accounts", "refresh_margin_seconds"]) == Some(Shown(c.refreshMargin))
            && LeafAt(v, ["accounts", "refresh_deadline_seconds"]) == Some(Shown(c.refreshDeadline))
            && LeafAt(v, ["quota", "probe_enabled"]) == Some(Shown(c.quota.probeEnabled))
            && LeafAt(v, ["quota", "probe_interval_seconds"]) == Some(Shown(c.quota.probeInterval))
            && LeafAt(v, ["quota", "probe_deadline_seconds"]) == Some(Shown(c.quota.probeDeadline))
            && LeafAt(v, ["quota", "revalidation_floor_seconds"]) == Some(Shown(c.quota.revalidationFloor))
            && LeafAt(v, ["quota", "revalidation_interval_seconds"]) == Some(Shown(c.quota.revalidationInterval))
            && LeafAt(v, ["clients", "enrollment_lifetime_seconds"]) == Some(Shown(c.clients.enrollmentLifetime))
            && LeafAt(v, ["clients", "advertised_base_url"]) == Some(Shown(c.clients.advertisedBaseUrl))
            && LeafAt(v, ["clients", "advertised_proxy_url"]) == Some(Shown(c.clients.advertisedProxyUrl))
            && LeafAt(v, ["clients", "base_url_ca_certificate_file"]) == Some(Shown(c.clients.baseUrlCaCertificate))
            && LeafAt(v, ["clients", "kit_file"]) == Some(Shown(c.clients.kitFile))
  {
    var v := EffectiveView(c);
    ViewKeysAreDistinct(c);
    KeysAreApart();
    hide DistinctKeys, Apart, Record, SelectionView, DataPlaneView, LeafAt;
    var accounts := [V(c.refreshMargin), V(c.refreshDeadline)];
    RecordShown(v, 1, ACCOUNTS, accounts, 0);
    RecordShown(v, 1, ACCOUNTS, accounts, 1);
    var q := c.quota;
    var quota := [V(q.probeEnabled), V(q.probeInterval), V(q.probeDeadline), V(q.revalidationFloor), V(q.revalidationInterval)];
    RecordShown(v, 2, QUOTA, quota, 0);
    RecordShown(v, 2, QUOTA, quota, 1);
    RecordShown(v, 2, QUOTA, quota, 2);
    RecordShown(v, 2, QUOTA, quota, 3);
    RecordShown(v, 2, QUOTA, quota, 4);
    var k := c.clients;
    var clients := [V(k.enrollmentLifetime), V(k.advertisedBaseUrl), V(k.advertisedProxyUrl), V(k.baseUrlCaCertificate), V(k.kitFile)];
    RecordShown(v, 7, CLIENTS, clients, 0);
    RecordShown(v, 7, CLIENTS, clients, 1);
    RecordShown(v, 7, CLIENTS, clients, 2);
    RecordShown(v, 7, CLIENTS, clients, 3);
    RecordShown(v, 7, CLIENTS, clients, 4);
  }

  lemma FileSettingsAreShown(c: Config)
    ensures var v := EffectiveView(c);
            && LeafAt(v, ["diagnostics", "wire_capture_directory"]) == Some(Shown(c.wireCaptureDirectory))
            && LeafAt(v, ["mitm", "enabled"]) == Some(Shown(c.mitmEnabled))
            && LeafAt(v, ["mitm", "listen"]) == Some(Shown(c.mitmListen))
            && LeafAt(v, ["storage", "state_file"]) == Some(Shown(c.stateFile))
            && LeafAt(v, ["logging", "directory"]) == Some(Shown(c.logDirectory))
            && LeafAt(v, ["logging", "level"]) == Some(Shown(c.logLevel))
            && LeafAt(v, ["logging", "max_bytes"]) == Some(Shown(c.logMaxBytes))
            && LeafAt(v, ["logging", "retained_files"]) == Some(Shown(c.logRetainedFiles))
            && LeafAt(v, ["audit", "max_bytes"]) == Some(Shown(c.auditMaxBytes))
            && LeafAt(v, ["audit", "retained_files"]) == Some(Shown(c.auditRetainedFiles))
  {
    var v := EffectiveView(c);
    ViewKeysAreDistinct(c);
    KeysAreApart();
    hide DistinctKeys, Apart, Record, SelectionView, DataPlaneView, QuotaView, ClientsView, LeafAt;
    RecordShown(v, 5, DIAGNOSTICS, [V(c.wireCaptureDirectory)], 0);
    RecordShown(v, 6, MITM, [V(c.mitmEnabled), V(c.mitmListen)], 0);
    RecordShown(v, 6, MITM, [V(c.mitmEnabled), V(c.mitmListen)], 1);
    RecordShown(v, 8, STORAGE, [V(c.stateFile)], 0);
    var logging := [V(c.logDirectory), V(c.logLevel), V(c.logMaxBytes), V(c.logRetainedFiles)];
    RecordShown(v, 9, LOGGING, logging, 0);
    RecordShown(v, 9, LOGGING, logging, 1);
    RecordShown(v, 9, LOGGING, logging, 2);
    RecordShown(v, 9, LOGGING, logging, 3);
    RecordShown(v, 10, AUDIT, [V(c.auditMaxBytes), V(c.auditRetainedFiles)], 0);
    RecordShown(v, 10, AUDIT, [V(c.auditMaxBytes), V(c.auditRetainedFiles)], 1);
  }

  lemma SelectionSettingsAreShown(c: Config)
    ensures var (v, s, r) := (EffectiveView(c), c.selection, c.selection.ramp);
            && LeafAt(v, ["selection", "switch_threshold"]) == Some(Shown(s.switchThreshold))
            && LeafAt(v, ["selection", "distribute_sessions"]) == Some(Shown(s.distributeSessions))
            && LeafAt(v, ["selection", "failover"]) == Some(Shown(s.failover))
            && LeafAt(v, ["selection", "blocked_models"]) == Some(Shown(s.blockedModels))
            && LeafAt(v, ["selection", "priorities"]) == Some(Shown(s.priorities))
            && LeafAt(v, ["selection", "routes"]) == Some(Shown(s.routes))
            && LeafAt(v, ["selection", "ramp", "enabled"]) == Some(Shown(r.enabled))
            && LeafAt(v, ["selection", "ramp", "initial_concurrency"]) == Some(Shown(r.initialConcurrency))
            && LeafAt(v, ["selection", "ramp", "concurrency_step"]) == Some(Shown(r.concurrencyStep))
            && LeafAt(v, ["selection", "ramp", "step_interval_ms"]) == Some(Shown(r.stepInterval))
            && LeafAt(v, ["selection", "ramp", "window_seconds"]) == Some(Shown(r.window))
  {
    var v := EffectiveView(c);
    var r := c.selection.ramp;
    ViewKeysAreDistinct(c);
    SelectionKeysAreDistinct(c.selection);
    KeysAreApart();
    RecordIsDistinct(RAMP, [V(r.enabled), V(r.initialConcurrency), V(r.concurrencyStep), V(r.stepInterval), V(r.window)]);
    hide DistinctKeys, Apart, DataPlaneView, QuotaView, ClientsView, LeafAt;
    LeafTwoDown(v, 3, 0);
    LeafTwoDown(v, 3, 1);
    LeafTwoDown(v, 3, 2);
    LeafTwoDown(v, 3, 3);
    LeafTwoDown(v, 3, 4);
    LeafTwoDown(v, 3, 5);
    LeafThreeDown(v, 3, 6, 0);
    LeafThreeDown(v, 3, 6, 1);
    LeafThreeDown(v, 3, 6, 2);
    LeafThreeDown(v, 3, 6, 3);
    LeafThreeDown(v, 3, 6, 4);
  }

  lemma DataPlaneLeaf(c: Config, i: nat, key: string, leaf: Leaf)
    requires i < 14 && DataPlaneView(c.dataPlane).members[i] == Member(key, ALeaf(leaf))
    ensures LeafAt(EffectiveView(c), ["data_plane", key]) == Some(leaf)
  {
    ViewKeysAreDistinct(c);
    DataPlaneKeysAreDistinct(c.dataPlane);
    assert DataPlaneView(c.dataPlane).AnObject? && |DataPlaneView(c.dataPlane).members| == 14;
    hide DistinctKeys, Record, DataPlaneView, SelectionView, QuotaView, ClientsView, LeafAt;
    LeafTwoDown(EffectiveView(c), 4, i);
  }

  lemma DataPlaneRecordLeaf(c: Config, i: nat, key: string, keys: seq<string>, leaves: seq<View>, k: nat)
    requires i < 14 && k < |keys| == |leaves| && Apart(keys) && leaves[k].ALeaf?
    requires DataPlaneView(c.dataPlane).members[i] == Member(key, Record(keys, leaves))
    ensures LeafAt(EffectiveView(c), ["data_plane", key, keys[k]]) == Some(leaves[k].leaf)
  {
    ViewKeysAreDistinct(c);
    DataPlaneKeysAreDistinct(c.dataPlane);
    RecordIsDistinct(keys, leaves);
    hide DistinctKeys, Apart, DataPlaneView, SelectionView, QuotaView, ClientsView, LeafAt;
    LeafThreeDown(EffectiveView(c), 4, i, k);
  }

  lemma ListenerSettingsAreShown(c: Config)
    ensures var (v, d) := (EffectiveView(c), c.dataPlane);
            && LeafAt(v, ["data_plane", "listen"]) == Some(Shown(d.listen))
            && LeafAt(v, ["data_plane", "upstream_origin"]) == Some(Shown(d.upstreamOrigin))
            && LeafAt(v, ["data_plane", "max_connections"]) == Some(Shown(d.maxConnections))
            && LeafAt(v, ["data_plane", "first_byte_timeout_seconds"]) == Some(Shown(d.firstByteTimeout))
            && LeafAt(v, ["data_plane", "body_idle_timeout_seconds"]) == Some(Shown(d.bodyIdleTimeout))
            && LeafAt(v, ["data_plane", "throttle_absorb_seconds"]) == Some(Shown(d.throttleAbsorb))
            && LeafAt(v, ["data_plane", "hold_budget_seconds"]) == Some(Shown(d.holdBudget))
            && LeafAt(v, ["data_plane", "telemetry_policy"]) == Some(Shown(d.telemetryPolicy))
            && LeafAt(v, ["data_plane", "no_proxy"]) == Some(Shown(d.noProxy))
  {
    var d := c.dataPlane;
    hide Record, NameOf, Maybe, EgressView, LeafAt, EffectiveView;
    DataPlaneLeaf(c, 0, "listen", Shown(d.listen));
    DataPlaneLeaf(c, 4, "upstream_origin", Shown(d.upstreamOrigin));
    DataPlaneLeaf(c, 5, "max_connections", Shown(d.maxConnections));
    DataPlaneLeaf(c, 6, "first_byte_timeout_seconds", Shown(d.firstByteTimeout));
    DataPlaneLeaf(c, 7, "body_idle_timeout_seconds", Shown(d.bodyIdleTimeout));
    DataPlaneLeaf(c, 8, "throttle_absorb_seconds", Shown(d.throttleAbsorb));
    DataPlaneLeaf(c, 9, "hold_budget_seconds", Shown(d.holdBudget));
    DataPlaneLeaf(c, 10, "telemetry_policy", Shown(d.telemetryPolicy));
    DataPlaneLeaf(c, 12, "no_proxy", Shown(d.noProxy));
  }

  lemma EgressSettingsAreShown(c: Config)
    ensures var (v, e) := (EffectiveView(c), c.dataPlane.egress);
            && LeafAt(v, ["data_plane", "egress", "mode"]) == Some(Shown(e.mode))
            && LeafAt(v, ["data_plane", "egress", "addresses"]) == Some(Shown(e.addresses))
            && LeafAt(v, ["data_plane", "egress", "check_url"]) == Some(Shown(e.checkUrl))
            && LeafAt(v, ["data_plane", "egress", "cache_seconds"]) == Some(Shown(e.cacheSeconds))
            && LeafAt(v, ["data_plane", "egress", "hold_seconds"]) == Some(Shown(e.holdSeconds))
  {
    var e := c.dataPlane.egress;
    KeysAreApart();
    hide Record, Apart, NameOf, Maybe, LeafAt, EffectiveView;
    var leaves := [V(e.mode), V(e.addresses), V(e.checkUrl), V(e.cacheSeconds), V(e.holdSeconds)];
    DataPlaneRecordLeaf(c, 13, "egress", EGRESS, leaves, 0);
    DataPlaneRecordLeaf(c, 13, "egress", EGRESS, leaves, 1);
    DataPlaneRecordLeaf(c, 13, "egress", EGRESS, leaves, 2);
    DataPlaneRecordLeaf(c, 13, "egress", EGRESS, leaves, 3);
    DataPlaneRecordLeaf(c, 13, "egress", EGRESS, leaves, 4);
  }

  /** The listener's files are shown by what there is of them, the proxy URL only
      by whether there is one. */
  lemma ReducedSettingsAreShown(c: Config)
    ensures var (v, d) := (EffectiveView(c), c.dataPlane);
            && LeafAt(v, ["data_plane", "tls"])
               == Some(Text(if d.tls.Off? then "off" else if d.tls.Identity? then "identity" else "certificate"))
            && LeafAt(v, ["data_plane", "tls_certificate_file"])
               == Some(if d.tls.Certificate? then Shown(d.tls.certificateFile) else Absent)
            && LeafAt(v, ["data_plane", "tls_private_key_file", "set"]) == Some(Truth(d.tls.Certificate?))
            && LeafAt(v, ["data_plane", "tls_private_key_file", "path"])
               == Some(if d.tls.Certificate? then Shown(d.tls.privateKeyFile) else Absent)
            && LeafAt(v, ["data_plane", "corporate_proxy_url", "set"]) == Some(Truth(d.corporateProxyUrl.Some?))
            && LeafAt(v, ["data_plane", "corporate_proxy_url", "path"]) == Some(Absent)
  {
    var d := c.dataPlane;
    KeysAreApart();
    hide Record, Apart, EgressView, LeafAt, EffectiveView;
    DataPlaneLeaf(c, 1, "tls", Text(if d.tls.Off? then "off" else if d.tls.Identity? then "identity" else "certificate"));
    DataPlaneLeaf(c, 2, "tls_certificate_file", if d.tls.Certificate? then Shown(d.tls.certificateFile) else Absent);
    var key, proxy := [ALeaf(Truth(d.tls.Certificate?)), Maybe(PrivateKeyOf(d.tls))], [ALeaf(Truth(d.corporateProxyUrl.Some?)), ALeaf(Absent)];
    DataPlaneRecordLeaf(c, 3, "tls_private_key_file", PRESENCE, key, 0);
    DataPlaneRecordLeaf(c, 3, "tls_private_key_file", PRESENCE, key, 1);
    DataPlaneRecordLeaf(c, 11, "corporate_proxy_url", PRESENCE, proxy, 0);
    DataPlaneRecordLeaf(c, 11, "corporate_proxy_url", PRESENCE, proxy, 1);
  }

  /** Segments with a dot between them. */
  function WithDots(path: seq<string>): string {
    if path == [] then "" else if |path| == 1 then path[0] else path[0] + ['.'] + WithDots(path[1..])
  }

  lemma {:induction false} WithDotsOneMore(path: seq<string>, key: string)
    requires path != []
    ensures WithDots(path + [key]) == WithDots(path) + ['.'] + key
  {
    var more := path + [key];
    if |path| == 1 {
      assert more[1..] == [key] && more[0] == path[0];
    } else {
      WithDotsOneMore(path[1..], key);
      assert more[1..] == path[1..] + [key] && more[0] == path[0];
      assert path[0] + ['.'] + (WithDots(path[1..]) + ['.'] + key) == (path[0] + ['.'] + WithDots(path[1..])) + ['.'] + key;
    }
  }

  /** The key reported for a path is its segments with dots between them. */
  lemma {:induction false} JoinPathHasDots(path: seq<string>)
    requires forall i :: 0 <= i < |path| ==> path[i] != ""
    ensures JoinPath(path) == WithDots(path)
    decreases |path|
  {
    if path != [] {
      var n := |path| - 1;
      JoinPathHasDots(path[..n]);
      assert path == path[..n] + [path[n]];
      if n > 0 {
        WithDotsOneMore(path[..n], path[n]);
        WithDotsIsThere(path[..n]);
      } else {
        assert path[..0] == [];
      }
    }
  }

  lemma WithDotsIsThere(path: seq<string>)
    requires path != [] && path[0] != ""
    ensures WithDots(path) != ""
  {
  }

  /** The keys stand in the order of the table. */
  lemma {:induction false} ChangedInOrder(first: seq<(string, bool)>, second: seq<(string, bool)>)
    ensures Changed(first + second) == Changed(first) + Changed(second)
  {
    if first == [] {
      assert first + second == second;
    } else {
      ChangedInOrder(first[1..], second);
      assert (first + second)[1..] == first[1..] + second && (first + second)[0] == first[0];
    }
  }
}

/** The scan detector as it runs: one mutable track for each source, its counts updated in place. */
module ScanTracks {
  import opened Bytes
  import opened Collections
  import opened Flows
  import opened Scans

  function Count<K>(m: map<K, nat>, k: K): nat { if k in m then m[k] else 0 }

  /** The kept counts are exactly the cardinalities of slices of the evidence; zeros are absent. */
  ghost predicate CountsTargets(m: map<Addr, nat>, keys: set<Probe>) {
    forall a :: Count(m, a) == PortsOn(keys, a) && (a in m ==> m[a] > 0)
  }

  ghost predicate CountsPorts(m: map<Uint16, nat>, keys: set<Probe>) {
    forall q :: Count(m, q) == TargetsOn(keys, q) && (q in m ==> m[q] > 0)
  }

  function Incremented<K>(m: map<K, nat>, k: K): map<K, nat> { m[k := Count(m, k) + 1] }

  /** One less, and gone at zero. */
  function Decremented<K>(m: map<K, nat>, k: K): map<K, nat> {
    if Count(m, k) > 1 then m[k := m[k] - 1] else m - {k}
  }

  lemma CountsAdd(a: map<Addr, nat>, b: map<Uint16, nat>, keys: set<Probe>, k: Probe)
    requires CountsTargets(a, keys) && CountsPorts(b, keys) && k !in keys
    ensures CountsTargets(Incremented(a, k.target), keys + {k}) && CountsPorts(Incremented(b, k.port), keys + {k})
  {
    hide PortsOn, TargetsOn;
    CountsGrow(keys, k);
  }

  lemma CountsRemove(a: map<Addr, nat>, b: map<Uint16, nat>, keys: set<Probe>, k: Probe)
    requires CountsTargets(a, keys) && CountsPorts(b, keys) && k in keys
    ensures CountsTargets(Decremented(a, k.target), keys - {k}) && CountsPorts(Decremented(b, k.port), keys - {k})
  {
    hide PortsOn, TargetsOn;
    CountsGrow(keys - {k}, k);
    assert keys - {k} + {k} == keys;
  }

  lemma CountsNone()
    ensures CountsTargets(map[], {}) && CountsPorts(map[], {})
  {
    forall a ensures PortsOn({}, a) == 0 {
      assert (set k: Probe | k in {} && k.target == a) == {};
    }
    forall q ensures TargetsOn({}, q) == 0 {
      assert (set k: Probe | k in {} && k.port == q) == {};
    }
  }

  lemma AnsweredNone(obs: map<Probe, Obs>)
    ensures AnsweredAmong(obs, {}) == {}
  {
  }

  class ScanTrack {
    var obs: map<Probe, Obs>
    var portsPerTarget: map<Addr, nat>
    var targetsPerPort: map<Uint16, nat>
    var syns: nat
    var last: Time
    var reportedVertical: bool
    var reportedHorizontal: bool

    ghost predicate Valid()
      reads this
    {
      CountsTargets(portsPerTarget, obs.Keys) && CountsPorts(targetsPerPort, obs.Keys)
    }

    ghost function Value(): Track
      reads this
    {
      Track(obs, syns, last, reportedVertical, reportedHorizontal)
    }

    constructor ()
      ensures Valid() && Value() == NEW_TRACK
    {
      obs, portsPerTarget, targetsPerPort := map[], map[], map[];
      syns, last, reportedVertical, reportedHorizontal := 0, UNSET, false, false;
      new;
      CountsNone();
      assert obs.Keys == {};
    }

    method RecordSyn(k: Probe, now: Time, cfg: ScanConfig)
      requires Valid()
      modifies this
      ensures Valid() && Value() == SynTrack(old(Value()), k, now, cfg)
    {
      hide PortsOn, TargetsOn;
      syns := syns + 1;
      last := now;
      if k in obs {
        obs := obs[k := obs[k].(last := now)];
        assert obs.Keys == old(obs).Keys;
        return;
      }
      assert Count(portsPerTarget, k.target) == PortsOn(obs.Keys, k.target) && Count(targetsPerPort, k.port) == TargetsOn(obs.Keys, k.port);
      if Count(portsPerTarget, k.target) >= cfg.maxPortsPerTarget {
        return;
      }
      if Count(targetsPerPort, k.port) >= cfg.maxTargetsPerPort {
        return;
      }
      CountsAdd(portsPerTarget, targetsPerPort, obs.Keys, k);
      hide CountsTargets, CountsPorts;
      obs := obs[k := Obs(now, false)];
      assert obs.Keys == old(obs).Keys + {k};
      portsPerTarget := Incremented(portsPerTarget, k.target);
      targetsPerPort := Incremented(targetsPerPort, k.port);
    }

    method RecordOpen(k: Probe)
      requires Valid()
      modifies this`obs
      ensures Valid() && Value() == OpenTrack(old(Value()), k)
    {
      if k in obs {
        obs := obs[k := obs[k].(answered := true)];
        assert obs.Keys == old(obs).Keys;
      }
    }

    /** Delete the probes older than the cutoff and count them out. */
    method Prune(cutoff: Time)
      requires Valid()
      modifies this`obs, this`portsPerTarget, this`targetsPerPort
      ensures Valid() && obs == Recent(old(obs), cutoff)
    {
      hide CountsTargets, CountsPorts, Sieving;
      ghost var before, kept := obs, Recent(obs, cutoff);
      var todo := obs.Keys;
      SieveStarts(before, kept.Keys);
      while todo != {}
        invariant Valid() && Sieving(before, obs, todo, kept.Keys) && todo <= obs.Keys
        decreases |todo|
      {
        var k :| k in todo;
        SieveNext(before, obs, todo, kept.Keys, k);
        todo := todo - {k};
        if obs[k].last < cutoff {
          CountsRemove(portsPerTarget, targetsPerPort, obs.Keys, k);
          assert (obs - {k}).Keys == obs.Keys - {k};
          obs := obs - {k};
          portsPerTarget := Decremented(portsPerTarget, k.target);
          targetsPerPort := Decremented(targetsPerPort, k.port);
        }
      }
      SieveEnds(before, obs, kept);
    }

    /** How many probes in the window were answered. */
    method Answered() returns (n: nat)
      ensures n == AnsweredCount(obs)
    {
      hide AnsweredAmong;
      n := 0;
      AnsweredNone(obs);
      var todo := obs.Keys;
      ghost var done: set<Probe> := {};
      while todo != {}
        invariant done + todo == obs.Keys && done !! todo
        invariant n == |AnsweredAmong(obs, done)|
        decreases |todo|
      {
        var k :| k in todo;
        AnsweredOne(obs, done, k);
        if obs[k].answered {
          n := n + 1;
        }
        todo, done := todo - {k}, done + {k};
      }
    }

    method LooksLikeScan(maxRatio: real) returns (yes: bool)
      ensures yes == ScanLike(obs, maxRatio)
    {
      if |obs| == 0 {
        return false;
      }
      var n := Answered();
      return n as real / |obs| as real <= maxRatio;
    }

    /** The target probed on the most ports. */
    method WidestTarget() returns (best: Addr, most: nat)
      requires Valid()
      ensures (forall a :: PortsOn(obs.Keys, a) <= most) && (most > 0 ==> PortsOn(obs.Keys, best) == most)
    {
      hide PortsOn, CountsPorts;
      best, most := 0, 0;
      var todo := portsPerTarget.Keys;
      while todo != {}
        invariant todo <= portsPerTarget.Keys
        invariant forall a | a in portsPerTarget && a !in todo :: portsPerTarget[a] <= most
        invariant most > 0 ==> best in portsPerTarget && portsPerTarget[best] == most
        decreases |todo|
      {
        var a :| a in todo;
        if portsPerTarget[a] > most {
          best, most := a, portsPerTarget[a];
        }
        todo := todo - {a};
      }
      forall a ensures PortsOn(obs.Keys, a) <= most {
        assert Count(portsPerTarget, a) == PortsOn(obs.Keys, a);
      }
      assert Count(portsPerTarget, best) == PortsOn(obs.Keys, best);
    }

    /** The port tried against the most targets. */
    method WidestPort() returns (best: Uint16, most: nat)
      requires Valid()
      ensures (forall q :: TargetsOn(obs.Keys, q) <= most) && (most > 0 ==> TargetsOn(obs.Keys, best) == most)
    {
      hide TargetsOn, CountsTargets;
      best, most := 0, 0;
      var todo := targetsPerPort.Keys;
      while todo != {}
        invariant todo <= targetsPerPort.Keys
        invariant forall q | q in targetsPerPort && q !in todo :: targetsPerPort[q] <= most
        invariant most > 0 ==> best in targetsPerPort && targetsPerPort[best] == most
        decreases |todo|
      {
        var q :| q in todo;
        if targetsPerPort[q] > most {
          best, most := q, targetsPerPort[q];
        }
        todo := todo - {q};
      }
      forall q ensures TargetsOn(obs.Keys, q) <= most {
        assert Count(targetsPerPort, q) == TargetsOn(obs.Keys, q);
      }
      assert Count(targetsPerPort, best) == TargetsOn(obs.Keys, best);
    }

    /**
     Score the source. A finding names the widest target or port and how wide it is, and is
     reported exactly when the specification says so.
     */
    method Score(cutoff: Time, cfg: ScanConfig) returns (v: Option<(Addr, nat)>, h: Option<(Uint16, nat)>)
      requires Valid() && cfg.Sane()
      modifies this
      ensures Valid() && Value() == Ticked(old(Value()), cutoff, cfg)
      ensures v.Some? <==> VerticalFinding(old(Value()), cutoff, cfg)
      ensures h.Some? <==> HorizontalFinding(old(Value()), cutoff, cfg)
      ensures v.Some? ==> WidestIs(obs.Keys, v.value.0, v.value.1)
      ensures h.Some? ==> WidestPortIs(obs.Keys, h.value.0, h.value.1)
    {
      hide CountsTargets, CountsPorts, PortsOn, TargetsOn, Recent, ScanLike;
      Prune(cutoff);
      var target, ports := WidestTarget();
      var port, hosts := WidestPort();
      if ports < cfg.verticalPorts {
        reportedVertical := false;
      }
      if hosts < cfg.horizontalHosts {
        reportedHorizontal := false;
      }
      v, h := None, None;
      var scan := LooksLikeScan(cfg.maxAnsweredRatio);
      if scan {
        if !reportedVertical && ports >= cfg.verticalPorts {
          v := Some((target, ports));
          reportedVertical := true;
        }
        if !reportedHorizontal && hosts >= cfg.horizontalHosts {
          h := Some((port, hosts));
          reportedHorizontal := true;
        }
      }
    }
  }

  ghost predicate WidestIs(keys: set<Probe>, target: Addr, n: nat) {
    PortsOn(keys, target) == n && forall a :: PortsOn(keys, a) <= n
  }

  ghost predicate WidestPortIs(keys: set<Probe>, port: Uint16, n: nat) {
    TargetsOn(keys, port) == n && forall q :: TargetsOn(keys, q) <= n
  }

  /** A reported shape: how wide, and where it is widest. */
  datatype Finding = Vertical(src: Addr, target: Addr, ports: nat) | Horizontal(src: Addr, port: Uint16, hosts: nat)

  /** What one source's score may say: that a shape is due, and where it is widest. */
  ghost predicate Due(t: Track, v: Option<(Addr, nat)>, h: Option<(Uint16, nat)>, cutoff: Time, cfg: ScanConfig) {
    && (v.Some? <==> VerticalFinding(t, cutoff, cfg)) && (h.Some? <==> HorizontalFinding(t, cutoff, cfg))
    && (v.Some? ==> WidestIs(Ticked(t, cutoff, cfg).obs.Keys, v.value.0, v.value.1))
    && (h.Some? ==> WidestPortIs(Ticked(t, cutoff, cfg).obs.Keys, h.value.0, h.value.1))
  }

  /** A finding names the widest target or port among what its source's pass leaves. */
  ghost predicate NamesWidest(f: Finding, t: Track, cutoff: Time, cfg: ScanConfig) {
    match f
    case Vertical(_, target, ports) => WidestIs(Ticked(t, cutoff, cfg).obs.Keys, target, ports)
    case Horizontal(_, port, hosts) => WidestPortIs(Ticked(t, cutoff, cfg).obs.Keys, port, hosts)
  }

  /** No source has two findings of one shape. */
  ghost predicate NoneTwice(out: seq<Finding>) {
    forall i, j | 0 <= i < j < |out| :: out[i].src != out[j].src || out[i].Vertical? != out[j].Vertical?
  }

  ghost predicate HasVertical(out: seq<Finding>, src: Addr) {
    exists i :: 0 <= i < |out| && out[i].Vertical? && out[i].src == src
  }

  ghost predicate HasHorizontal(out: seq<Finding>, src: Addr) {
    exists i :: 0 <= i < |out| && out[i].Horizontal? && out[i].src == src
  }

  /** Each finding is of a source visited, names what is widest there, and comes once. */
  ghost predicate Listed(out: seq<Finding>, m: map<Addr, Track>, todo: set<Addr>, cutoff: Time, cfg: ScanConfig) {
    && NoneTwice(out)
    && forall i | 0 <= i < |out| :: out[i].src in m && out[i].src !in todo && NamesWidest(out[i], m[out[i].src], cutoff, cfg)
  }

  /** The findings are exactly those due for the sources visited so far. */
  ghost predicate Reports(out: seq<Finding>, m: map<Addr, Track>, todo: set<Addr>, cutoff: Time, cfg: ScanConfig) {
    forall a ::
      && (HasVertical(out, a) <==> a in m && a !in todo && VerticalFinding(m[a], cutoff, cfg))
      && (HasHorizontal(out, a) <==> a in m && a !in todo && HorizontalFinding(m[a], cutoff, cfg))
  }

  /** The findings of one source, in the order they are made. */
  function FindingsOf(src: Addr, v: Option<(Addr, nat)>, h: Option<(Uint16, nat)>): seq<Finding> {
    (if v.Some? then [Vertical(src, v.value.0, v.value.1)] else []) +
    (if h.Some? then [Horizontal(src, h.value.0, h.value.1)] else [])
  }

  lemma HasAppend(out: seq<Finding>, more: seq<Finding>, a: Addr)
    ensures HasVertical(out + more, a) <==> HasVertical(out, a) || HasVertical(more, a)
    ensures HasHorizontal(out + more, a) <==> HasHorizontal(out, a) || HasHorizontal(more, a)
  {
    var all := out + more;
    assert forall i | 0 <= i < |out| :: all[i] == out[i];
    assert forall i | 0 <= i < |more| :: all[|out| + i] == more[i];
  }

  lemma FindingsHas(src: Addr, v: Option<(Addr, nat)>, h: Option<(Uint16, nat)>, a: Addr)
    ensures HasVertical(FindingsOf(src, v, h), a) <==> a == src && v.Some?
    ensures HasHorizontal(FindingsOf(src, v, h), a) <==> a == src && h.Some?
  {
    var fs := FindingsOf(src, v, h);
    if v.Some? {
      assert fs[0].Vertical?;
    }
    if h.Some? {
      assert fs[|fs| - 1].Horizontal?;
    }
  }

  lemma ReportsNext(out: seq<Finding>, m: map<Addr, Track>, todo: set<Addr>, cutoff: Time, cfg: ScanConfig, src: Addr,
                    v: Option<(Addr, nat)>, h: Option<(Uint16, nat)>)
    requires Reports(out, m, todo, cutoff, cfg) && src in todo && src in m
    requires Due(m[src], v, h, cutoff, cfg)
    ensures Reports(out + FindingsOf(src, v, h), m, todo - {src}, cutoff, cfg)
  {
    hide VerticalFinding, HorizontalFinding, HasVertical, HasHorizontal, FindingsOf, WidestIs, WidestPortIs, Ticked;
    var all := out + FindingsOf(src, v, h);
    forall a
      ensures HasVertical(all, a) <==> a in m && a !in todo - {src} && VerticalFinding(m[a], cutoff, cfg)
      ensures HasHorizontal(all, a) <==> a in m && a !in todo - {src} && HorizontalFinding(m[a], cutoff, cfg)
    {
      HasAppend(out, FindingsOf(src, v, h), a);
      FindingsHas(src, v, h, a);
    }
  }

  lemma ListedNext(out: seq<Finding>, m: map<Addr, Track>, todo: set<Addr>, cutoff: Time, cfg: ScanConfig, src: Addr,
                   v: Option<(Addr, nat)>, h: Option<(Uint16, nat)>)
    requires Listed(out, m, todo, cutoff, cfg) && src in todo && src in m && Due(m[src], v, h, cutoff, cfg)
    ensures Listed(out + FindingsOf(src, v, h), m, todo - {src}, cutoff, cfg)
  {
    hide VerticalFinding, HorizontalFinding, WidestIs, WidestPortIs, Ticked;
    var more := FindingsOf(src, v, h);
    assert forall i | 0 <= i < |more| :: more[i].src == src && NamesWidest(more[i], m[src], cutoff, cfg);
    assert NoneTwice(more);
  }

  /** Part way through a pass. */
  ghost predicate Sweeping(before: map<Addr, Track>, now: map<Addr, Track>, todo: set<Addr>, cutoff: Time, cfg: ScanConfig) {
    && todo <= before.Keys
    && forall a ::
         && (a in now <==> a in before && (a in todo || !Stale(before[a], cutoff)))
         && (a in now ==> now[a] == if a in todo then before[a] else Ticked(before[a], cutoff, cfg))
  }

  function Scored(now: map<Addr, Track>, a: Addr, t: Track, stale: bool): map<Addr, Track> {
    if stale then now - {a} else now[a := t]
  }

  lemma ScoredIs(now: map<Addr, Track>, a: Addr, t: Track)
    ensures Scored(now, a, t, true) == now[a := t] - {a} && Scored(now, a, t, false) == now[a := t]
  {
  }

  lemma SweepingNext(before: map<Addr, Track>, now: map<Addr, Track>, todo: set<Addr>, cutoff: Time, cfg: ScanConfig,
                     a: Addr)
    requires Sweeping(before, now, todo, cutoff, cfg) && a in todo
    ensures a in before && a in now && now[a] == before[a]
    ensures Sweeping(before, Scored(now, a, Ticked(before[a], cutoff, cfg), Stale(before[a], cutoff)), todo - {a}, cutoff, cfg)
  {
    hide Stale, Ticked;
  }

  lemma Swept(before: map<Addr, Track>, now: map<Addr, Track>, cutoff: Time, cfg: ScanConfig)
    requires Sweeping(before, now, {}, cutoff, cfg)
    ensures now == OnTick(before, cutoff, cfg)
  {
    hide Stale, Ticked;
  }

  lemma SweepStarts(before: map<Addr, Track>, cutoff: Time, cfg: ScanConfig)
    ensures Sweeping(before, before, before.Keys, cutoff, cfg) 
    ensures Reports([], before, before.Keys, cutoff, cfg) && Listed([], before, before.Keys, cutoff, cfg)
  {
    hide Stale, Ticked, VerticalFinding, HorizontalFinding;
  }

  /** A source is stale when its pass leaves it no evidence and it was last heard before the cutoff. */
  lemma LeftEmpty(t: Track, cutoff: Time, cfg: ScanConfig)
    ensures var after := Ticked(t, cutoff, cfg);
            Stale(t, cutoff) <==> |after.obs| == 0 && after.last < cutoff
  {
    hide VerticalFinding, HorizontalFinding, NarrowTargets, NarrowPorts;
  }

  lemma RunMore(es: seq<ScanEvent>, e: ScanEvent, cfg: ScanConfig)
    ensures Run(es + [e], cfg) == Step(Run(es, cfg), e, cfg)
  {
    hide Step;
    assert (es + [e])[..|es|] == es;
  }

  /** The findings are exactly those the packets call for at this pass. */
  ghost predicate CalledFor(out: seq<Finding>, es: seq<ScanEvent>, n: nat, cfg: ScanConfig) {
    forall a ::
      && (HasVertical(out, a) <==> ToReport(Deep, es, n, a, cfg))
      && (HasHorizontal(out, a) <==> ToReport(Wide, es, n, a, cfg))
  }

  lemma ReportsCalledFor(out: seq<Finding>, es: seq<ScanEvent>, now: Time, cfg: ScanConfig)
    requires cfg.Sane() && Reports(out, Run(es, cfg), {}, now - cfg.window, cfg) && TicksForward(es + [Tick(now)])
    ensures CalledFor(out, es + [Tick(now)], |es|, cfg)
  {
    hide Run, ToReport, FindingAt, HasVertical, HasHorizontal, VerticalFinding, HorizontalFinding, TicksForward;
    var all := es + [Tick(now)];
    forall a
      ensures HasVertical(out, a) <==> ToReport(Deep, all, |es|, a, cfg)
      ensures HasHorizontal(out, a) <==> ToReport(Wide, all, |es|, a, cfg)
    {
      FindingExact(Deep, all, |es|, a, cfg);
      FindingExact(Wide, all, |es|, a, cfg);
      FindingAtLast(es, now, a, cfg);
    }
  }

  lemma FindingAtLast(es: seq<ScanEvent>, now: Time, a: Addr, cfg: ScanConfig)
    ensures var m, cutoff, all := Run(es, cfg), now - cfg.window, es + [Tick(now)];
            && (FindingAt(Deep, all, |es|, a, cfg) <==> a in m && VerticalFinding(m[a], cutoff, cfg))
            && (FindingAt(Wide, all, |es|, a, cfg) <==> a in m && HorizontalFinding(m[a], cutoff, cfg))
  {
    hide Run, VerticalFinding, HorizontalFinding;
    var all := es + [Tick(now)];
    assert all[..|es|] == es && all[|es|] == Tick(now);
  }

  class Scan {
    const cfg: ScanConfig
    var tracks: map<Addr, ScanTrack>
    ghost var events: seq<ScanEvent> // every packet and pass so far

    ghost predicate Valid()
      reads this, tracks.Values
    {
      && cfg.Sane()
      && (forall a | a in tracks :: tracks[a].Valid())
      && (forall a, b | a in tracks && b in tracks && a != b :: tracks[a] != tracks[b])
    }

    /** The tracks are those its events lead to. */
    ghost predicate Traced()
      reads this, tracks.Values
    {
      View() == Run(events, cfg)
    }

    /** What the detector knows, free of the heap. */
    ghost function View(): map<Addr, Track>
      reads this, tracks.Values
    {
      map a | a in tracks :: tracks[a].Value()
    }

    constructor (cfg: ScanConfig)
      requires cfg.Sane()
      ensures Valid() && Traced() && View() == map[] && this.cfg == cfg && events == []
    {
      this.cfg := cfg;
      tracks, events := map[], [];
      new;
      NothingLatched(cfg);
    }

    method RecordSyn(p: Packet)
      requires Valid()
      modifies this`tracks, tracks.Values
      ensures Valid() && View() == OnSyn(old(View()), p, cfg)
      ensures forall a | a in tracks :: tracks[a] in old(tracks.Values) || fresh(tracks[a])
    {
      hide Valid, View, SynTrack, ProbeOf;
      var known := Admit(p.src.addr);
      if known {
        ProbeOne(p.src.addr, ProbeOf(p), p.timestamp);
      }
    }

    /** Find the track of a source, or start one while there is room. */
    method Admit(src: Addr) returns (known: bool)
      requires Valid()
      modifies this`tracks
      ensures Valid() && (known <==> src in old(View()) || |old(View())| < cfg.maxTracked) && (known ==> src in tracks)
      ensures View() == if known && src !in old(View()) then old(View())[src := NEW_TRACK] else old(View())
      ensures forall a | a in tracks :: tracks[a] in old(tracks.Values) || fresh(tracks[a])
    {
      hide Valid;
      ViewKeys();
      if src !in tracks {
        if |tracks| >= cfg.maxTracked {
          return false;
        }
        Enroll(src);
      }
      return true;
    }

    lemma ViewKeys()
      ensures View().Keys == tracks.Keys && |View()| == |tracks|
    {
      assert View().Keys == tracks.Keys;
    }

    method ProbeOne(src: Addr, k: Probe, now: Time)
      requires Valid() && src in tracks
      modifies tracks[src]
      ensures Valid() && src in old(View()) && View() == old(View())[src := SynTrack(old(View())[src], k, now, cfg)]
    {
      hide ScanTrack.Valid, SynTrack;
      tracks[src].RecordSyn(k, now, cfg);
    }

    method Enroll(src: Addr)
      requires Valid() && src !in tracks
      modifies this`tracks
      ensures Valid() && src in tracks && fresh(tracks[src]) && tracks == old(tracks)[src := tracks[src]]
      ensures View() == old(View())[src := NEW_TRACK]
    {
      hide ScanTrack.Valid, ScanTrack.Value;
      var t := new ScanTrack();
      tracks := tracks[src := t];
    }

    method RecordOpen(p: Packet)
      requires Valid()
      modifies tracks.Values
      ensures Valid() && View() == OnSynAck(old(View()), p)
    {
      hide ScanTrack.Valid, OpenTrack;
      if p.dst.addr in tracks {
        assert tracks[p.dst.addr] in tracks.Values;
        tracks[p.dst.addr].RecordOpen(AnswerOf(p));
      }
    }

    /** Let SYNs and SYN-ACKs change the tracks. */
    method OnPacket(p: Packet)
      requires Valid() && Traced()
      modifies this`tracks, this`events, tracks.Values
      ensures Valid() && Traced() && View() == Step(old(View()), Seen(p), cfg) && events == old(events) + [Seen(p)]
      ensures forall a | a in tracks :: tracks[a] in old(tracks.Values) || fresh(tracks[a])
    {
      hide Valid, View, OnSyn, OnSynAck, Run;
      ghost var es := events;
      if p.IsSyn() {
        RecordSyn(p);
      } else if p.IsSynAck() {
        RecordOpen(p);
      }
      RunMore(es, Seen(p), cfg);
      Note(Seen(p));
    }

    /** Score one source, and forget it when nothing is left of it. */
    method ScoreOne(a: Addr, cutoff: Time) returns (v: Option<(Addr, nat)>, h: Option<(Uint16, nat)>)
      requires Valid() && a in tracks
      modifies this`tracks, tracks[a]
      ensures Valid() && (forall b | b in tracks :: b in old(tracks) && tracks[b] == old(tracks)[b])
      ensures var t := old(View())[a];
              && View() == Scored(old(View()), a, Ticked(t, cutoff, cfg), Stale(t, cutoff)) && Due(t, v, h, cutoff, cfg)
    {
      hide Valid, Ticked, Stale, Due, Scored;
      ghost var was := View();
      ViewKeys();
      LeftEmpty(was[a], cutoff, cfg);
      ScoredIs(was, a, Ticked(was[a], cutoff, cfg));
      v, h := TickOne(a, cutoff);
      if |tracks[a].obs| == 0 && tracks[a].last < cutoff {
        Drop(a);
      }
    }

    method TickOne(a: Addr, cutoff: Time) returns (v: Option<(Addr, nat)>, h: Option<(Uint16, nat)>)
      requires Valid() && a in tracks
      modifies tracks[a]
      ensures Valid() && a in old(View())
      ensures var t := old(View())[a];
              && View() == old(View())[a := Ticked(t, cutoff, cfg)]
              && tracks[a].obs == Ticked(t, cutoff, cfg).obs && tracks[a].last == Ticked(t, cutoff, cfg).last
              && Due(t, v, h, cutoff, cfg)
    {
      hide ScanTrack.Valid, Ticked, VerticalFinding, HorizontalFinding, WidestIs, WidestPortIs;
      v, h := tracks[a].Score(cutoff, cfg);
    }

    method Drop(a: Addr)
      requires Valid()
      modifies this`tracks
      ensures Valid() && View() == old(View()) - {a} && tracks == old(tracks) - {a}
    {
      hide ScanTrack.Valid;
      tracks := tracks - {a};
    }

    /** Prune, score and expire each source in turn. */
    method Sweep(now: Time) returns (out: seq<Finding>)
      requires Valid()
      modifies this`tracks, tracks.Values
      ensures Valid() && View() == Step(old(View()), Tick(now), cfg)
      ensures Reports(out, old(View()), {}, now - cfg.window, cfg)
      ensures Listed(out, old(View()), {}, now - cfg.window, cfg)
      ensures forall a | a in tracks :: tracks[a] in old(tracks.Values)
    {
      hide Valid, Sweeping, Reports, Listed, Ticked, Stale, Due, FindingsOf, Scored;
      var cutoff := now - cfg.window;
      ghost var before := View();
      SweepStarts(before, cutoff, cfg);
      assert before.Keys == tracks.Keys;
      out := [];
      var todo := tracks.Keys;
      while todo != {}
        invariant Valid() && Sweeping(before, View(), todo, cutoff, cfg)
        invariant Reports(out, before, todo, cutoff, cfg) && Listed(out, before, todo, cutoff, cfg)
        invariant forall a | a in tracks :: a in old(tracks) && tracks[a] == old(tracks)[a]
        decreases |todo|
      {
        var a :| a in todo;
        SweepingNext(before, View(), todo, cutoff, cfg, a);
        var v, h := ScoreOne(a, cutoff);
        ReportsNext(out, before, todo, cutoff, cfg, a, v, h);
        ListedNext(out, before, todo, cutoff, cfg, a, v, h);
        out := out + FindingsOf(a, v, h);
        todo := todo - {a};
      }
      Swept(before, View(), cutoff, cfg);
    }

    /** Evaluate every source and expire stale evidence. */
    method OnTick(now: Time) returns (out: seq<Finding>)
      requires Valid() && Traced()
      modifies this`tracks, this`events, tracks.Values
      ensures Valid() && Traced() && View() == Step(old(View()), Tick(now), cfg) && events == old(events) + [Tick(now)]
      ensures TicksForward(events) ==> CalledFor(out, events, |old(events)|, cfg)
      ensures Reports(out, old(View()), {}, now - cfg.window, cfg)
      ensures Listed(out, old(View()), {}, now - cfg.window, cfg)
      ensures forall a | a in tracks :: tracks[a] in old(tracks.Values)
    {
      hide Valid, View, Reports, Listed, Run, Step, CalledFor, TicksForward;
      SaneConfig();
      ghost var es := events;
      out := Sweep(now);
      RunMore(es, Tick(now), cfg);
      if TicksForward(es + [Tick(now)]) {
        ReportsCalledFor(out, es, now, cfg);
      }
      Note(Tick(now));
    }

    lemma SaneConfig()
      requires Valid()
      ensures cfg.Sane()
    {
    }

    /** Add to the events, and to nothing else. */
    ghost method Note(e: ScanEvent)
      requires Valid()
      modifies this`events
      ensures Valid() && events == old(events) + [e] && View() == old(View())
    {
      hide ScanTrack.Valid, ScanTrack.Value;
      events := events + [e];
    }
  }
}

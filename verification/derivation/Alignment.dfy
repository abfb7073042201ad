/** When a recording made under failures still replays: exactly when its validities stay aligned with the block. */
module Alignment {
  import opened Prelude
  import opened Bytes
  import opened Commitment
  import opened Derivation
  import opened Runs
  import opened Providers
  import opened Replay

  // Keys recorded under retries

  /** There is at least a key for each commitment, and no key is ahead of its place. */
  ghost predicate Trails(keys: seq<AltDACommitment>, cs: seq<AltDACommitment>) {
    |keys| >= |cs| && forall i :: 0 <= i < |cs| ==> keys[i] in cs[..i + 1]
  }

  /** Up to place `p` the keys are the commitments; then the key of `p` is followed by a second try of it. */
  ghost predicate Slips(keys: seq<AltDACommitment>, cs: seq<AltDACommitment>, p: int) {
    && 0 <= p < |cs| && p < |keys|
    && keys[..p + 1] == cs[..p + 1]
    && Trails(keys[p + 1..], cs[p..])
  }

  /** Keys recorded for the commitments from number `base` on, with the tally of failures in that time. */
  ghost predicate Tries(keys: seq<AltDACommitment>, cs: seq<AltDACommitment>, base: nat, failed: seq<nat>) {
    && Trails(keys, cs)
    && if failed == [] then keys == cs else Slips(keys, cs, failed[0] - 1 - base)
  }

  lemma TriesDone(
      c: AltDACommitment, keys: seq<AltDACommitment>, cs: seq<AltDACommitment>, base: nat, failed: seq<nat>)
    requires Tries(keys, cs, base + 1, failed)
    ensures Tries([c] + keys, [c] + cs, base, failed)
  {
    var ks, ds := [c] + keys, [c] + cs;
    forall i | 0 <= i < |ds|
      ensures ks[i] in ds[..i + 1]
    {
      if i > 0 {
        assert ks[i] == keys[i - 1] && ds[..i + 1] == [c] + cs[..i];
      }
    }
    if failed != [] {
      var p := failed[0] - 1 - base;
      assert ks[..p + 1] == [c] + keys[..p] && ds[..p + 1] == [c] + cs[..p];
      assert ks[p + 1..] == keys[p..] && ds[p..] == cs[p - 1..];
    }
  }

  lemma TriesAgain(keys: seq<AltDACommitment>, cs: seq<AltDACommitment>, base: nat, failed: seq<nat>)
    requires cs != [] && Tries(keys, cs, base + 1, failed)
    ensures Tries([cs[0]] + keys, cs, base, [base + 1] + failed)
  {
    var ks := [cs[0]] + keys;
    forall i | 0 <= i < |cs|
      ensures ks[i] in cs[..i + 1]
    {
      if i > 0 {
        assert ks[i] == keys[i - 1] && keys[i - 1] in cs[..i] && cs[..i] <= cs[..i + 1];
      }
    }
    assert ks[..1] == cs[..1] && ks[1..] == keys && cs[0..] == cs;
  }

  /** From place `p` on, all commitments are the same. */
  ghost predicate SameFrom(cs: seq<AltDACommitment>, p: int) {
    forall i :: 0 <= p <= i < |cs| ==> cs[i] == cs[p]
  }

  /** Keys that slipped are still aligned only if nothing but the commitment they slipped on follows. */
  lemma SlippedAligned(keys: seq<AltDACommitment>, cs: seq<AltDACommitment>, p: int)
    requires Slips(keys, cs, p) && |keys| >= |cs|
    ensures cs <= keys <==> SameFrom(cs, p)
  {
    forall k | p < k < |cs|
      ensures keys[k] in cs[p..k]
    {
      assert keys[p + 1..][k - p - 1] == keys[k] && cs[p..][..k - p] == cs[p..k];
    }
    if cs <= keys {
      forall i | p <= i < |cs|
        ensures cs[i] == cs[p]
      {
        AlignedSame(keys, cs, p, i);
      }
    }
    if SameFrom(cs, p) {
      forall i | 0 <= i < |cs|
        ensures keys[i] == cs[i]
      {
        if i <= p {
          assert keys[..p + 1][i] == cs[..p + 1][i];
        } else {
          var j :| 0 <= j < i - p && cs[p..i][j] == keys[i];
          assert cs[p + j] == cs[p] == cs[i];
        }
      }
      assert cs == keys[..|cs|];
    }
  }

  lemma {:induction false} AlignedSame(keys: seq<AltDACommitment>, cs: seq<AltDACommitment>, p: nat, i: nat)
    requires cs <= keys && p <= i < |cs|
    requires forall k :: p < k < |cs| ==> keys[k] in cs[p..k]
    ensures cs[i] == cs[p]
    decreases i
  {
    if i > p {
      assert keys[i] in cs[p..i] && keys[i] == cs[i];
      var j :| 0 <= j < i - p && cs[p..i][j] == keys[i];
      AlignedSame(keys, cs, p, p + j);
    }
  }

  // What a truthful recording leaves

  ghost predicate AllCertsSupported(items: seq<Item>, truth: Truth) {
    forall i :: 0 <= i < |items| && items[i].Cert? ==> Supported(truth, items[i].c)
  }

  predicate Wanted(truth: Truth, c: AltDACommitment, bn: nat) {
    truth.validity(c)
    && RecencyWindow(c.versionedCert).Success? && IsRecent(bn, GetRbn(c), RecencyWindow(c.versionedCert).value)
  }

  /** The payloads that the items ask for, in order. */
  function PayloadsOf(items: seq<Item>, truth: Truth, bn: nat): seq<PayloadEntry> {
    if items == [] then []
    else
      (if items[0].Cert? && Wanted(truth, items[0].c, bn) then [(items[0].c, truth.payload(items[0].c))] else [])
      + PayloadsOf(items[1..], truth, bn)
  }

  function WorthOf(item: Item, truth: Truth, bn: nat): seq<seq<byte>> {
    match item
    case Plain(out) => out
    case Cert(c) => CommitmentOutput(truth, c, bn)
  }

  /** What the items are worth. */
  function Worth(items: seq<Item>, truth: Truth, bn: nat): seq<seq<byte>> {
    if items == [] then [] else WorthOf(items[0], truth, bn) + Worth(items[1..], truth, bn)
  }

  /** From `a` to `b` the items were dealt with truthfully: each payload once, each validity once and again
      after each failed fetch. */
  ghost predicate Follows<S>(
      a: Record<S>, b: Record<S>, items: seq<Item>, outs: seq<seq<byte>>, truth: Truth, bn: nat)
  {
    && a.validities <= b.validities && a.payloads <= b.payloads && a.inner.1.failed <= b.inner.1.failed
    && AllCertsSupported(items, truth)
    && outs == Worth(items, truth, bn)
    && TrueValidities(Since(a, b).validities, truth)
    && Since(a, b).payloads == PayloadsOf(items, truth, bn)
    && Tries(Keys(Since(a, b).validities), CertsOf(items), |a.validities|,
             b.inner.1.failed[|a.inner.1.failed|..])
  }

  /** The tally is of the record it comes with, and the provider is in order. */
  ghost predicate Ready<S>(a: Record<S>, inv: S -> bool) {
    inv(a.inner.0) && a.inner.1.answered == |a.validities|
  }

  /** One try of a commitment, seen from the record. */
  ghost predicate Tried<S>(
      a: Record<S>, m: Record<S>, c: AltDACommitment, h: Outcome, truth: Truth, bn: nat)
  {
    var v := (c, truth.validity(c));
    && (h.Done? ==>
          && Supported(truth, c) && h.out == CommitmentOutput(truth, c, bn)
          && m.validities == a.validities + [v] && m.inner.1.failed == a.inner.1.failed
          && m.payloads == a.payloads + if Wanted(truth, c, bn) then [(c, truth.payload(c))] else [])
    && (h.Retry? ==>
          && m.payloads == a.payloads
          && ((m.validities == a.validities && m.inner.1.failed == a.inner.1.failed)
              || (m.validities == a.validities + [v]
                  && m.inner.1.failed == a.inner.1.failed + [|a.validities| + 1])))
  }

  lemma HandleTries<S(!new)>(
      P: Provider<S>, truth: Truth, inv: S -> bool, a: Record<S>, c: AltDACommitment, bn: nat)
    requires Faithful(P, truth, inv) && Ready(a, inv)
    ensures var (m, h) := Handle(Recorder(Counted(P)), a, Cert(c), bn);
            !h.Fatal() ==> Ready(m, inv) && Tried(a, m, c, h, truth, bn)
  {
    hide Codec.Decode, GetRbn, IsRecent, Faithful;
    var R := Recorder(Counted(P));
    FaithfulHere(P, truth, inv, a.inner.0, c);
    var (a1, v) := R.getValidity(a, c);
    if v.Got? {
      assert a1.validities == a.validities + [(c, truth.validity(c))];
      FaithfulHere(P, truth, inv, a1.inner.0, c);
    }
    assert a.payloads + [] == a.payloads;
  }

  lemma FaithfulHere<S(!new)>(P: Provider<S>, truth: Truth, inv: S -> bool, s: S, c: AltDACommitment)
    requires Faithful(P, truth, inv) && inv(s)
    ensures FaithfulAt(P, truth, inv, s, c)
  {
  }

  lemma KeysOfMore(v: ValidityEntry, vs: seq<ValidityEntry>)
    ensures Keys([v] + vs) == [v.0] + Keys(vs)
  {
  }

  lemma FollowsPlain<S>(
      a: Record<S>, b: Record<S>, items: seq<Item>, outs: seq<seq<byte>>, truth: Truth, bn: nat)
    requires items != [] && items[0].Plain? && Follows(a, b, items[1..], outs, truth, bn)
    ensures Follows(a, b, items, items[0].out + outs, truth, bn)
  {
    hide Tries, Since;
    assert [] + CertsOf(items[1..]) == CertsOf(items[1..]);
    assert [] + PayloadsOf(items[1..], truth, bn) == PayloadsOf(items[1..], truth, bn);
  }

  lemma FollowsDone<S>(
      a: Record<S>, m: Record<S>, b: Record<S>, items: seq<Item>, outs: seq<seq<byte>>,
      h: Outcome, truth: Truth, bn: nat)
    requires items != [] && items[0].Cert? && h.Done? && Tried(a, m, items[0].c, h, truth, bn)
    requires Follows(m, b, items[1..], outs, truth, bn)
    ensures Follows(a, b, items, h.out + outs, truth, bn)
  {
    hide Tries, Since, Wanted, Supported, CommitmentOutput;
    var c, later := items[0].c, Since(m, b);
    var v := (c, truth.validity(c));
    SinceAppends(a, m, b);
    SinceIs(a, m, [v], if Wanted(truth, c, bn) then [(c, truth.payload(c))] else []);
    KeysOfMore(v, later.validities);
    TriesDone(c, Keys(later.validities), CertsOf(items[1..]), |a.validities|,
              b.inner.1.failed[|m.inner.1.failed|..]);
  }

  lemma SinceIs<S>(a: Record<S>, m: Record<S>, vs: seq<ValidityEntry>, ps: seq<PayloadEntry>)
    requires m.validities == a.validities + vs && m.payloads == a.payloads + ps
    ensures a.validities <= m.validities && a.payloads <= m.payloads && Since(a, m) == Queues(vs, ps)
  {
  }

  lemma FollowsAgain<S>(
      a: Record<S>, m: Record<S>, b: Record<S>, items: seq<Item>, outs: seq<seq<byte>>,
      h: Outcome, truth: Truth, bn: nat)
    requires items != [] && items[0].Cert? && h.Retry? && Tried(a, m, items[0].c, h, truth, bn)
    requires Follows(m, b, items, outs, truth, bn)
    ensures Follows(a, b, items, outs, truth, bn)
  {
    hide Tries, Since, Wanted, Supported, CommitmentOutput, Worth, PayloadsOf;
    var c, later := items[0].c, Since(m, b);
    var v := (c, truth.validity(c));
    SinceAppends(a, m, b);
    if m.validities == a.validities {
      SinceIs(a, m, [], []);
      assert [] + later.validities == later.validities && [] + later.payloads == later.payloads;
    } else {
      SinceIs(a, m, [v], []);
      assert [] + later.payloads == later.payloads;
      KeysOfMore(v, later.validities);
      var failed := b.inner.1.failed[|m.inner.1.failed|..];
      TriesAgain(Keys(later.validities), CertsOf(items), |a.validities|, failed);
      assert b.inner.1.failed[|a.inner.1.failed|..] == [|a.validities| + 1] + failed;
    }
  }

  lemma FollowsNothing<S>(a: Record<S>, truth: Truth, bn: nat)
    ensures Follows(a, a, [], [], truth, bn)
  {
    assert Since(a, a) == Queues([], []);
  }

  lemma FollowsStep<S(!new)>(
      P: Provider<S>, truth: Truth, inv: S -> bool,
      a: Record<S>, b: Record<S>, items: seq<Item>, outs: seq<seq<byte>>, bn: nat)
    requires Faithful(P, truth, inv) && Ready(a, inv) && items != []
    requires var (m, h) := Handle(Recorder(Counted(P)), a, items[0], bn);
             !h.Fatal() && (Ready(m, inv) ==> Follows(m, b, if h.Done? then items[1..] else items, outs, truth, bn))
    ensures var h := Handle(Recorder(Counted(P)), a, items[0], bn).1;
            Follows(a, b, items, (if h.Done? then h.out else []) + outs, truth, bn)
  {
    hide Faithful, Ready, Follows, Tried, Handle, Recorder, Counted;
    var (m, h) := Handle(Recorder(Counted(P)), a, items[0], bn);
    match items[0] {
      case Plain(out) =>
        PlainHandled(Recorder(Counted(P)), a, items[0], bn);
        FollowsPlain(a, b, items, outs, truth, bn);
      case Cert(c) =>
        HandleTries(P, truth, inv, a, c, bn);
        if h.Done? {
          FollowsDone(a, m, b, items, outs, h, truth, bn);
        } else {
          FollowsAgain(a, m, b, items, outs, h, truth, bn);
          assert [] + outs == outs;
        }
    }
  }

  lemma RunFollows<S(!new)>(
      P: Provider<S>, truth: Truth, inv: S -> bool, st: State<Record<S>>, bn: nat, calls: nat)
    requires Faithful(P, truth, inv) && Ready(st.provider, inv)
    requires var rs := Run(Recorder(Counted(P)), st, bn, calls).1;
             ReachesEof(rs) && ProviderCritical !in rs
    ensures var (st', rs) := Run(Recorder(Counted(P)), st, bn, calls);
            Follows(st.provider, st'.provider, Todo(st), Outputs(rs), truth, bn)
  {
    hide Recorder, Counted, Run, ReachesEof, Follows, Faithful, Ready, Todo, Handle;
    var Q := (a: Record<S>, b: Record<S>, items: seq<Item>, outs: seq<seq<byte>>) =>
      Ready(a, inv) ==> Follows(a, b, items, outs, truth, bn);
    var R := Recorder(Counted(P));
    forall a: Record<S>
      ensures Q(a, a, [], [])
    {
      FollowsNothing(a, truth, bn);
    }
    forall a: Record<S>, b: Record<S>, items: seq<Item>, outs: seq<seq<byte>>
      ensures Composes(R, Q, a, b, items, outs, bn)
    {
      if items != [] && Ready(a, inv) {
        var (m, h) := Handle(R, a, items[0], bn);
        if !h.Fatal() && Q(m, b, if h.Done? then items[1..] else items, outs) {
          FollowsStep(P, truth, inv, a, b, items, outs, bn);
        }
      }
    }
    RunInduction(R, Q, st, bn, calls);
  }

  // Replaying it

  /** Over truthful queues with the wanted payload in front, a commitment is dealt with truthfully if the next
      validity is its own, and otherwise panics. */
  lemma PreloadedHandles(q: Queues, c: AltDACommitment, truth: Truth, bn: nat)
    requires TrueValidities(q.validities, truth) && Supported(truth, c)
    requires Wanted(truth, c, bn) ==> q.payloads != [] && q.payloads[0] == (c, truth.payload(c))
    ensures if q.validities == [] || q.validities[0].0 != c then Handle(Preloaded(), q, Cert(c), bn).1 == Panicked
            else
              Handle(Preloaded(), q, Cert(c), bn)
              == (Queues(q.validities[1..], if Wanted(truth, c, bn) then q.payloads[1..] else q.payloads),
                  Done(CommitmentOutput(truth, c, bn)))
  {
    hide Codec.Decode, GetRbn, IsRecent;
  }

  /** The truthful record replays, to what the items are worth, exactly when its validities are those of the
      block's commitments, one each and in order. */
  lemma {:induction false} ReplayAligned(items: seq<Item>, q: Queues, truth: Truth, bn: nat)
    requires TrueValidities(q.validities, truth) && AllCertsSupported(items, truth)
    requires q.payloads == PayloadsOf(items, truth, bn)
    ensures var r := ReplayItems(items, q, bn);
            && (r.Some? <==> CertsOf(items) <= Keys(q.validities))
            && (r.Some? ==> r.value.0 == Worth(items, truth, bn))
    decreases |items|
  {
    hide Handle, Preloaded, Wanted, Supported, CommitmentOutput;
    if items != [] {
      var rest := items[1..];
      match items[0] {
        case Plain(out) =>
          PlainHandled(Preloaded(), q, items[0], bn);
          assert [] + CertsOf(rest) == CertsOf(rest);
          assert [] + PayloadsOf(rest, truth, bn) == PayloadsOf(rest, truth, bn);
          ReplayAligned(rest, q, truth, bn);
        case Cert(c) =>
          PreloadedHandles(q, c, truth, bn);
          var keys := Keys(q.validities);
          if q.validities != [] && q.validities[0].0 == c {
            var q' := Handle(Preloaded(), q, items[0], bn).0;
            assert q'.payloads == PayloadsOf(rest, truth, bn);
            ReplayAligned(rest, q', truth, bn);
            assert keys == [c] + Keys(q'.validities);
            FirstAligned(c, CertsOf(rest), Keys(q'.validities));
          } else {
            assert CertsOf(items)[0] == c;
            assert keys == [] || keys[0] != c;
          }
      }
    }
  }

  lemma FirstAligned(c: AltDACommitment, cs: seq<AltDACommitment>, keys: seq<AltDACommitment>)
    ensures [c] + cs <= [c] + keys <==> cs <= keys
  {
    assert ([c] + cs)[1..] == cs;
    if |cs| <= |keys| {
      assert ([c] + keys)[..|cs| + 1] == [c] + keys[..|cs|];
      assert ([c] + keys[..|cs|])[1..] == keys[..|cs|];
    }
  }

  // A replay that does not get through panics

  predicate Panics(rs: seq<PipelineResult>) {
    rs != [] && rs[|rs| - 1].Aborted?
  }

  lemma PreloadedNotBroken(q: Queues, item: Item, truth: Truth, bn: nat)
    requires TrueValidities(q.validities, truth) && (item.Cert? ==> Supported(truth, item.c))
    ensures var (q', h) := Handle(Preloaded(), q, item, bn);
            !h.Broken? && TrueValidities(q'.validities, truth)
  {
    hide Codec.Decode, GetRbn, IsRecent;
  }

  lemma {:induction false} PreloadedNext(st: State<Queues>, truth: Truth, bn: nat)
    requires TrueValidities(st.provider.validities, truth) && AllCertsSupported(Todo(st), truth)
    ensures var (st', r) := DeriveNext(Preloaded(), st, bn);
            !r.ProviderCritical? && TrueValidities(st'.provider.validities, truth)
            && AllCertsSupported(Todo(st'), truth)
    decreases st.Measure()
  {
    hide Round, Todo, Preloaded, Handle, TrueValidities, Supported;
    RoundHandles(Preloaded(), st, bn);
    var (st1, o) := Round(Preloaded(), st, bn);
    if Todo(st) != [] {
      PreloadedNotBroken(st.provider, Todo(st)[0], truth, bn);
    }
    if o.Continue? {
      PreloadedNext(st1, truth, bn);
    }
  }

  lemma {:induction false} PreloadedRunEnds(st: State<Queues>, truth: Truth, bn: nat, calls: nat)
    requires TrueValidities(st.provider.validities, truth) && AllCertsSupported(Todo(st), truth)
    requires calls > st.Measure()
    ensures var rs := Run(Preloaded(), st, bn, calls).1;
            ProviderCritical !in rs && (ReachesEof(rs) || Panics(rs))
    decreases calls
  {
    hide DeriveNext, Todo, Preloaded, TrueValidities, AllCertsSupported;
    NextReplays(st, bn);
    PreloadedNext(st, truth, bn);
    var (st1, r) := DeriveNext(Preloaded(), st, bn);
    if !r.Eof? && !r.Aborted? {
      PreloadedRunEnds(st1, truth, bn, calls - 1);
      var rs := Run(Preloaded(), st1, bn, calls - 1).1;
      assert ([r] + rs)[|rs|] == rs[|rs| - 1];
    }
  }

  // When a recording replays

  /** No payload fetch failed, or every commitment after the first failed fetch is the one it failed on. */
  ghost predicate Harmless(failed: seq<nat>, cs: seq<AltDACommitment>) {
    failed == [] || SameFrom(cs, failed[0] as int - 1)
  }

  /** The replay reaches end of data without failing and returns `outs`, whatever it leaves in the queues. */
  ghost predicate ReplaysSame(q: Queues, events: seq<EthEvent>, bn: nat, calls: nat, outs: seq<seq<byte>>) {
    var rs := Run(Preloaded(), State(events, None, q), bn, calls).1;
    ReachesEof(rs) && ProviderCritical !in rs && Outputs(rs) == outs
  }

  /** A truthful recording run to end of data, whatever failed temporarily on the way, replays to the same outputs
      if and only if the recorded validities start with those of the block's commitments, one each and in order.
      That is so if and only if the failed fetches were harmless. Otherwise the replay panics. */
  lemma ReplayIffAligned<S(!new)>(
      P: Provider<S>, truth: Truth, inv: S -> bool, s: S, events: seq<EthEvent>, bn: nat, calls: nat,
      replayEvents: seq<EthEvent>, replayCalls: nat)
    requires Faithful(P, truth, inv) && inv(s)
    requires DataOf(replayEvents) == DataOf(events) && replayCalls > |replayEvents|
    requires var rs := Run(Recorder(Counted(P)), State(events, None, Blank(s)), bn, calls).1;
             ReachesEof(rs) && ProviderCritical !in rs
    ensures var (st, rs) := Run(Recorder(Counted(P)), State(events, None, Blank(s)), bn, calls);
            var (r, cs) := (st.provider, CertsOf(Items(DataOf(events))));
            var q := Queues(r.validities, r.payloads);
            && (ReplaysSame(q, replayEvents, bn, replayCalls, Outputs(rs)) <==> cs <= Keys(r.validities))
            && (cs <= Keys(r.validities) <==> Harmless(r.inner.1.failed, cs))
            && (!(cs <= Keys(r.validities)) ==>
                  Panics(Run(Preloaded(), State(replayEvents, None, q), bn, replayCalls).1))
  {
    hide Run, ReachesEof, Faithful, Recorder, Counted, Preloaded, Todo, Items, DataOf, ReplayItems, Tries, Follows;
    hide TrueValidities, AllCertsSupported, PayloadsOf, Worth, Harmless, CertsOf, Keys, Panics, Blank, Ready;
    var a, items := Blank(s), Items(DataOf(events));
    var st0 := State(events, None, a);
    TodoFirst(st0);
    BlankReady(s, inv);
    RunFollows(P, truth, inv, st0, bn, calls);
    var (st, rs) := Run(Recorder(Counted(P)), st0, bn, calls);
    var b := st.provider;
    var q := Queues(b.validities, b.payloads);
    FollowsBlank(s, b, items, Outputs(rs), truth, bn);
    var st1 := State(replayEvents, None, q);
    TodoFirst(st1);
    ReplayAligned(items, q, truth, bn);
    RunReplays(st1, bn, replayCalls);
    PreloadedRunEnds(st1, truth, bn, replayCalls);
    TriesAligned(Keys(b.validities), CertsOf(items), b.inner.1.failed);
  }

  lemma BlankReady<S>(s: S, inv: S -> bool)
    requires inv(s)
    ensures Ready(Blank(s), inv)
  {
  }

  lemma FollowsBlank<S>(
      s: S, b: Record<S>, items: seq<Item>, outs: seq<seq<byte>>, truth: Truth, bn: nat)
    requires Follows(Blank(s), b, items, outs, truth, bn)
    ensures AllCertsSupported(items, truth) && outs == Worth(items, truth, bn)
    ensures TrueValidities(b.validities, truth) && b.payloads == PayloadsOf(items, truth, bn)
    ensures Tries(Keys(b.validities), CertsOf(items), 0, b.inner.1.failed)
  {
    hide Tries, Worth, PayloadsOf, CertsOf, Keys;
    assert Since(Blank(s), b) == Queues(b.validities, b.payloads);
    assert b.inner.1.failed[0..] == b.inner.1.failed;
  }

  lemma TriesAligned(keys: seq<AltDACommitment>, cs: seq<AltDACommitment>, failed: seq<nat>)
    requires Tries(keys, cs, 0, failed)
    ensures cs <= keys <==> Harmless(failed, cs)
  {
    if failed != [] {
      SlippedAligned(keys, cs, failed[0] - 1);
    }
  }
}

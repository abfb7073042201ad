/** Recording a run and replaying it: exactly when the replay is the run again. */
module Replay {
  import opened Prelude
  import opened Bytes
  import opened Commitment
  import opened Derivation
  import opened Runs
  import opened Providers

  // The machine, item by item

  /** What an L1 item asks for: nothing of a provider, or one commitment. */
  datatype Item = Plain(out: seq<seq<byte>>) | Cert(c: AltDACommitment)

  function ItemOf(data: seq<byte>): Item {
    if data == [] then Plain([])
    else if data[0] != ALTDA_DERIVATION_VERSION then Plain([data])
    else
      match ParseCalldata(data)
      case None => Plain([])
      case Some(c) => Cert(c)
  }

  /** The L1 items, without the Ethereum source's errors. */
  function DataOf(events: seq<EthEvent>): seq<seq<byte>> {
    if events == [] then []
    else (if events[0].Data? then [events[0].data] else []) + DataOf(events[1..])
  }

  function Items(ds: seq<seq<byte>>): seq<Item> {
    if ds == [] then [] else [ItemOf(ds[0])] + Items(ds[1..])
  }

  /** The items still to be dealt with, the held commitment first. */
  function Todo<S>(st: State<S>): seq<Item> {
    (if st.pending.Some? then [Cert(st.pending.value)] else []) + Items(DataOf(st.events))
  }

  datatype Outcome = Done(out: seq<seq<byte>>) | Retry | Broken | Panicked {
    predicate Fatal() {
      Broken? || Panicked?
    }
  }

  function Handle<S>(P: Provider<S>, s: S, item: Item, bn: nat): (S, Outcome) {
    match item
    case Plain(out) => (s, Done(out))
    case Cert(c) =>
      match SourceNext(P, s, c, bn)
      case (s', Got(e)) =>
        (s', Done(match Codec.Decode(e)
                  case Success(payload) => [payload]
                  case Failure(_) => []))
      case (s', Err(Discard)) => (s', Done([]))
      case (s', Err(Temporary)) => (s', Retry)
      case (s', Err(Critical)) => (s', Broken)
      case (s', Abort) => (s', Panicked)
  }

  function Returned(o: RoundResult): seq<seq<byte>> {
    if o.Stop? then OutputOf(o.result) else []
  }

  predicate Failing(r: PipelineResult) {
    r.ProviderCritical? || r.Aborted?
  }

  lemma FetchHandles<S>(P: Provider<S>, events: seq<EthEvent>, c: AltDACommitment, s: S, bn: nat)
    ensures var (st', o) := Fetch(P, events, c, s, bn);
            var (s', h) := Handle(P, s, Cert(c), bn);
            && st' == State(events, if h.Done? then None else Some(c), s')
            && (o == Stop(ProviderTemporary) <==> h.Retry?)
            && (o == Stop(ProviderCritical) <==> h.Broken?)
            && (o == Stop(Aborted) <==> h.Panicked?)
            && (h.Done? ==> Returned(o) == h.out && (o.Stop? ==> o.result.Item?))
            && (o.Stop? ==> !o.result.EthFailed? && !o.result.Eof?)
  {
    hide SourceNext, Codec.Decode;
  }

  /** A round either reports the end or an Ethereum error, or handles the first item and drops it
      exactly when done with it. */
  lemma RoundHandles<S>(P: Provider<S>, st: State<S>, bn: nat)
    ensures var (st', o) := Round(P, st, bn);
            if o == Stop(Eof) then Todo(st) == [] && st' == st
            else if o.Stop? && o.result.EthFailed? then
              Todo(st') == Todo(st) && st'.provider == st.provider && st'.Measure() < st.Measure()
            else
              && Todo(st) != []
              && var (s', h) := Handle(P, st.provider, Todo(st)[0], bn);
                 && st'.provider == s'
                 && (o == Stop(ProviderTemporary) <==> h.Retry?)
                 && (o == Stop(ProviderCritical) <==> h.Broken?)
                 && (o == Stop(Aborted) <==> h.Panicked?)
                 && (h.Done? ==> Todo(st') == Todo(st)[1..] && Returned(o) == h.out && st'.Measure() < st.Measure())
                 && (!h.Done? ==> Todo(st') == Todo(st))
  {
    hide ParseCalldata, Fetch, Handle, Items, DataOf;
    if st.pending.Some? {
      FetchHandles(P, st.events, st.pending.value, st.provider, bn);
      assert Todo(st)[1..] == Items(DataOf(st.events));
    } else {
      TodoFirst(st);
      if st.events != [] && st.events[0].Data? {
        var item := ItemOf(st.events[0].data);
        if item.Cert? {
          FetchHandles(P, st.events[1..], item.c, st.provider, bn);
        } else {
          PlainHandled(P, st.provider, item, bn);
        }
      }
    }
  }

  /** With nothing held, what is to do is what the events bring, in order. */
  lemma TodoFirst<S>(st: State<S>)
    requires st.pending == None
    ensures Todo(st) == Items(DataOf(st.events))
    ensures st.events == [] ==> Todo(st) == []
    ensures st.events != [] ==>
              var later := Items(DataOf(st.events[1..]));
              Todo(st) == match st.events[0]
                          case Data(data) => [ItemOf(data)] + later
                          case EthError(_) => later
  {
    hide ItemOf;
    assert [] + Items(DataOf(st.events)) == Items(DataOf(st.events));
    if st.events != [] {
      var later := DataOf(st.events[1..]);
      assert st.events[0].Data? ==> DataOf(st.events)[0] == st.events[0].data && DataOf(st.events)[1..] == later;
      assert st.events[0].EthError? ==> DataOf(st.events) == later;
    }
  }

  lemma PlainHandled<S>(P: Provider<S>, s: S, item: Item, bn: nat)
    requires item.Plain?
    ensures Handle(P, s, item, bn) == (s, Done(item.out))
  {
  }

  // What holds of the items holds of the run

  /** A relation between the provider's states before and after, the items dealt with, and what came out. */
  type Relation<!S> = (S, S, seq<Item>, seq<seq<byte>>) -> bool

  /** The relation extends to one more item in front, or one more try of the first. */
  ghost predicate Composes<S>(
      P: Provider<S>, Q: Relation<S>, a: S, b: S, items: seq<Item>, outs: seq<seq<byte>>, bn: nat)
  {
    items != [] ==>
      var (m, h) := Handle(P, a, items[0], bn);
      !h.Fatal() && Q(m, b, if h.Done? then items[1..] else items, outs)
      ==> Q(a, b, items, (if h.Done? then h.out else []) + outs)
  }

  ghost predicate Inductive<S(!new)>(P: Provider<S>, Q: Relation<S>, bn: nat) {
    && (forall a :: Q(a, a, [], []))
    && forall a, b, items, outs :: Composes(P, Q, a, b, items, outs, bn)
  }

  lemma {:induction false} NextInduction<S(!new)>(
      P: Provider<S>, Q: Relation<S>, st: State<S>, b: S, outs: seq<seq<byte>>, bn: nat)
    requires Inductive(P, Q, bn)
    requires var (st', r) := DeriveNext(P, st, bn);
             !Failing(r) && Q(st'.provider, b, Todo(st'), outs)
    ensures var r := DeriveNext(P, st, bn).1;
            Q(st.provider, b, Todo(st), OutputOf(r) + outs)
    decreases st.Measure()
  {
    hide Round, Todo, Handle;
    RoundHandles(P, st, bn);
    var (st1, o) := Round(P, st, bn);
    var next := outs;
    if o.Continue? {
      NextInduction(P, Q, st1, b, outs, bn);
      next := OutputOf(DeriveNext(P, st1, bn).1) + outs;
    }
    assert [] + next == next && [] + outs == outs;
    if Todo(st) != [] && !(o.Stop? && o.result.EthFailed?) {
      var h := Handle(P, st.provider, Todo(st)[0], bn).1;
      assert Composes(P, Q, st.provider, b, Todo(st), next, bn);
      assert Q(st.provider, b, Todo(st), (if h.Done? then h.out else []) + next);
    }
  }

  /** A run to end of data, whatever failed temporarily on the way, keeps every inductive relation. */
  lemma {:induction false} RunInduction<S(!new)>(P: Provider<S>, Q: Relation<S>, st: State<S>, bn: nat, calls: nat)
    requires Inductive(P, Q, bn)
    requires var rs := Run(P, st, bn, calls).1;
             ReachesEof(rs) && ProviderCritical !in rs
    ensures var (st', rs) := Run(P, st, bn, calls);
            Q(st.provider, st'.provider, Todo(st), Outputs(rs))
    decreases calls
  {
    hide DeriveNext, Run, ReachesEof, Todo, Composes;
    EofTakesACall(P, st, bn, calls);
    RunStep(P, st, bn, calls);
    var (st1, r) := DeriveNext(P, st, bn);
    if r.Eof? {
      EofClears(P, st, bn);
      TodoFirst(st1);
      assert Q(st1.provider, st1.provider, [], []);
      NextInduction(P, Q, st, st1.provider, [], bn);
      assert Outputs([r]) == OutputOf(r) + [];
    } else {
      var (st2, rs) := Run(P, st1, bn, calls - 1);
      assert ([r] + rs)[0] == r && ([r] + rs)[1..] == rs;
      RunInduction(P, Q, st1, bn, calls - 1);
      NextInduction(P, Q, st, st2.provider, Outputs(rs), bn);
    }
  }

  // Replaying items

  /** Items dealt with one by one over a replay's queues: what comes out and what is left of the queues,
      or nothing if the replay fails on one of them. */
  function ReplayItems(items: seq<Item>, q: Queues, bn: nat): Option<(seq<seq<byte>>, Queues)> {
    if items == [] then Some(([], q))
    else
      match Handle(Preloaded(), q, items[0], bn)
      case (q', Done(out)) => Prepend(out, ReplayItems(items[1..], q', bn))
      case (_, _) => None
  }

  function Prepend(out: seq<seq<byte>>, r: Option<(seq<seq<byte>>, Queues)>): Option<(seq<seq<byte>>, Queues)> {
    match r
    case None => None
    case Some((outs, q)) => Some((out + outs, q))
  }

  lemma PrependTwice(a: seq<seq<byte>>, b: seq<seq<byte>>, r: Option<(seq<seq<byte>>, Queues)>)
    ensures Prepend(a, Prepend(b, r)) == Prepend(a + b, r)
    ensures Prepend([], r) == r
  {
    if r.Some? {
      assert a + (b + r.value.0) == (a + b) + r.value.0 && [] + r.value.0 == r.value.0;
    }
  }

  // A run over the queues is the items replayed

  /** The preloaded provider never asks for a retry. */
  lemma NeverRetries(q: Queues, item: Item, bn: nat)
    ensures !Handle(Preloaded(), q, item, bn).1.Retry?
  {
    hide Codec.Decode, GetRbn;
  }

  lemma {:induction false} NextReplays(st: State<Queues>, bn: nat)
    ensures var (st', r) := DeriveNext(Preloaded(), st, bn);
            && !r.ProviderTemporary?
            && (Failing(r) ==> ReplayItems(Todo(st), st.provider, bn) == None)
            && (!Failing(r) ==> ReplayItems(Todo(st), st.provider, bn)
                                == Prepend(OutputOf(r), ReplayItems(Todo(st'), st'.provider, bn)))
            && (r.Eof? ==> Todo(st') == [])
            && (!r.Eof? && !Failing(r) ==> st'.Measure() < st.Measure())
    decreases st.Measure()
  {
    hide Round, Todo, Preloaded, Handle;
    RoundHandles(Preloaded(), st, bn);
    var (st1, o) := Round(Preloaded(), st, bn);
    var rest := ReplayItems(Todo(st1), st1.provider, bn);
    PrependTwice([], [], rest);
    if Todo(st) != [] {
      NeverRetries(st.provider, Todo(st)[0], bn);
    }
    if o.Continue? {
      NextReplays(st1, bn);
    }
  }

  /** A replay by calls of `next` gets through without failing exactly when the items replay, and then
      returns and leaves the same. */
  lemma {:induction false} RunReplays(st: State<Queues>, bn: nat, calls: nat)
    requires calls > st.Measure()
    ensures var (st', rs) := Run(Preloaded(), st, bn, calls);
            var replayed := ReplayItems(Todo(st), st.provider, bn);
            && (ReachesEof(rs) && ProviderCritical !in rs <==> replayed.Some?)
            && (replayed.Some? ==> replayed.value == (Outputs(rs), st'.provider))
    decreases calls
  {
    hide DeriveNext, Todo, Preloaded, Run, ReachesEof;
    NextReplays(st, bn);
    RunStep(Preloaded(), st, bn, calls);
    var (st1, r) := DeriveNext(Preloaded(), st, bn);
    if r.Eof? || r.Aborted? {
      assert Outputs([r]) == OutputOf(r);
    } else {
      var rs := Run(Preloaded(), st1, bn, calls - 1).1;
      assert ([r] + rs)[0] == r && ([r] + rs)[1..] == rs;
      if !Failing(r) {
        RunReplays(st1, bn, calls - 1);
      }
    }
  }

  // What a recording run leaves

  /** The number of validities answered, and what it was at each payload fetch that failed. */
  datatype Tally = Tally(answered: nat, failed: seq<nat>)

  /** `P`, keeping a tally. */
  function Counted<S>(P: Provider<S>): Provider<(S, Tally)> {
    Provider(
      (s, c) => CountedValidity(P, s, c),
      (s, c) => CountedPayload(P, s, c))
  }

  function CountedValidity<S>(P: Provider<S>, s: (S, Tally), c: AltDACommitment): ((S, Tally), Reply<bool>) {
    var (s', reply) := P.getValidity(s.0, c);
    ((s', if reply.Got? then s.1.(answered := s.1.answered + 1) else s.1), reply)
  }

  function CountedPayload<S>(P: Provider<S>, s: (S, Tally), c: AltDACommitment): ((S, Tally), Reply<seq<byte>>) {
    var (s', reply) := P.getEncodedPayload(s.0, c);
    ((s', if reply.Got? then s.1 else s.1.(failed := s.1.failed + [s.1.answered])), reply)
  }

  /** A provider fails or answers; discarding is for the source to decide. */
  ghost predicate NeverDiscards<S(!new)>(P: Provider<S>) {
    forall s, c :: P.getValidity(s, c).1 != Err(Discard) && P.getEncodedPayload(s, c).1 != Err(Discard)
  }

  lemma OracleNeverDiscards<Key(!new)>(H: AddressSpace.Hashes<Key>, host: nat -> Turn)
    ensures NeverDiscards(OracleProvider(H, host))
  {
    hide AddressSpace.ReadElements, AddressSpace.ReadValidity, AddressSpace.RunHints, GetNumFieldElement;
  }

  type Record<!S> = Recording<(S, Tally)>

  /** The start of a recording. */
  function Blank<S>(s: S): Record<S> {
    Recording((s, Tally(0, [])), [], [])
  }

  /** The commitments among items. */
  function CertsOf(items: seq<Item>): seq<AltDACommitment> {
    if items == [] then [] else (if items[0].Cert? then [items[0].c] else []) + CertsOf(items[1..])
  }

  /** What was recorded between two points, as queues. */
  function Since<S>(a: Record<S>, b: Record<S>): Queues
    requires a.validities <= b.validities && a.payloads <= b.payloads
  {
    Queues(b.validities[|a.validities|..], b.payloads[|a.payloads|..])
  }

  /** The number of payload fetches that had failed. */
  function Failures<S>(r: Record<S>): nat {
    |r.inner.1.failed|
  }

  /** From `a` to `b` the items were dealt with, giving `outs`: one validity was recorded for each commitment
      and one for each failed payload fetch, and if none failed the record replays to the same. */
  ghost predicate Records<S>(a: Record<S>, b: Record<S>, items: seq<Item>, outs: seq<seq<byte>>, bn: nat) {
    && a.validities <= b.validities && a.payloads <= b.payloads && Failures(a) <= Failures(b)
    && |b.validities| - |a.validities| == |CertsOf(items)| + Failures(b) - Failures(a)
    && (Failures(a) == Failures(b) ==> ReplayItems(items, Since(a, b), bn) == Some((outs, Queues([], []))))
  }

  lemma PopsFirst(
      c: AltDACommitment, v: bool, vs: seq<ValidityEntry>,
      payload: seq<byte>, ps: seq<PayloadEntry>, q: seq<PayloadEntry>)
    ensures Preloaded().getValidity(Queues([(c, v)] + vs, q), c) == (Queues(vs, q), Got(v))
    ensures Preloaded().getEncodedPayload(Queues(vs, [(c, payload)] + ps), c) == (Queues(vs, ps), Got(payload))
  {
    assert ([(c, v)] + vs)[1..] == vs && ([(c, payload)] + ps)[1..] == ps;
  }

  /** One commitment: what is recorded of it, and that a replay of the record, with anything recorded later
      behind it, does the same and leaves what was behind. */
  lemma HandleRecords<S(!new)>(
      P: Provider<S>, a: Record<S>, c: AltDACommitment, bn: nat, vs: seq<ValidityEntry>, ps: seq<PayloadEntry>)
    requires NeverDiscards(P)
    ensures var (m, h) := Handle(Recorder(Counted(P)), a, Cert(c), bn);
            && a.validities <= m.validities && a.payloads <= m.payloads && Failures(a) <= Failures(m)
            && (h.Done? ==>
                  && |m.validities| == |a.validities| + 1 && Failures(m) == Failures(a)
                  && Handle(Preloaded(), Queues(Since(a, m).validities + vs, Since(a, m).payloads + ps), Cert(c), bn)
                     == (Queues(vs, ps), h))
            && (h.Retry? ==>
                  |m.validities| - |a.validities| == Failures(m) - Failures(a) && m.payloads == a.payloads)
  {
    hide Codec.Decode, GetRbn, IsRecent;
    var R := Recorder(Counted(P));
    var (a1, v) := R.getValidity(a, c);
    var (a2, p) := R.getEncodedPayload(a1, c);
    assert P.getValidity(a.inner.0, c).1 != Err(Discard) && P.getEncodedPayload(a1.inner.0, c).1 != Err(Discard);
    if v.Got? {
      var m := SourceNext(R, a, c, bn).0;
      assert m.validities == a.validities + [(c, v.value)];
      assert Since(a, m).validities == [(c, v.value)];
      if p.Got? {
        PopsFirst(c, v.value, vs, p.value, ps, [(c, p.value)] + ps);
        assert (a.payloads + [(c, p.value)])[|a.payloads|..] == [(c, p.value)];
      }
      PopsFirst(c, v.value, vs, [], ps, ps);
      assert [] + ps == ps;
    }
  }

  lemma SinceAppends<S>(a: Record<S>, m: Record<S>, b: Record<S>)
    requires a.validities <= m.validities <= b.validities && a.payloads <= m.payloads <= b.payloads
    ensures a.validities <= b.validities && a.payloads <= b.payloads
    ensures Since(a, b) == Queues(Since(a, m).validities + Since(m, b).validities,
                                  Since(a, m).payloads + Since(m, b).payloads)
    ensures a.validities == m.validities && a.payloads == m.payloads ==> Since(a, b) == Since(m, b)
  {
    assert Since(a, b).validities == Since(a, m).validities + Since(m, b).validities;
    assert Since(a, b).payloads == Since(a, m).payloads + Since(m, b).payloads;
  }

  /** The same for any item, put in front of what follows. */
  lemma HandleThenRecords<S(!new)>(
      P: Provider<S>, a: Record<S>, b: Record<S>, items: seq<Item>, outs: seq<seq<byte>>, bn: nat)
    requires NeverDiscards(P) && items != []
    requires var (m, h) := Handle(Recorder(Counted(P)), a, items[0], bn);
             !h.Fatal() && Records(m, b, if h.Done? then items[1..] else items, outs, bn)
    ensures var h := Handle(Recorder(Counted(P)), a, items[0], bn).1;
            Records(a, b, items, (if h.Done? then h.out else []) + outs, bn)
  {
    hide Handle, Recorder, Counted, Preloaded, Since, Failures;
    var (m, h) := Handle(Recorder(Counted(P)), a, items[0], bn);
    var later := Since(m, b);
    assert [] + outs == outs;
    match items[0] {
      case Plain(out) =>
        PlainHandled(Recorder(Counted(P)), a, items[0], bn);
        PlainHandled(Preloaded(), later, items[0], bn);
      case Cert(c) =>
        HandleRecords(P, a, c, bn, later.validities, later.payloads);
        SinceAppends(a, m, b);
        if h.Done? {
          assert Handle(Preloaded(), Since(a, b), items[0], bn) == (later, h);
        }
    }
  }

  lemma EmptyRecords<S>(a: Record<S>, bn: nat)
    ensures Records(a, a, [], [], bn)
  {
    assert Since(a, a) == Queues([], []);
  }

  lemma RunRecords<S(!new)>(P: Provider<S>, st: State<Record<S>>, bn: nat, calls: nat)
    requires NeverDiscards(P)
    requires var rs := Run(Recorder(Counted(P)), st, bn, calls).1;
             ReachesEof(rs) && ProviderCritical !in rs
    ensures var (st', rs) := Run(Recorder(Counted(P)), st, bn, calls);
            Records(st.provider, st'.provider, Todo(st), Outputs(rs), bn)
  {
    hide Recorder, Counted, Run, ReachesEof, Records, NeverDiscards, Todo, Handle;
    var Q := (a: Record<S>, b: Record<S>, items: seq<Item>, outs: seq<seq<byte>>) => Records(a, b, items, outs, bn);
    var R := Recorder(Counted(P));
    forall a: Record<S>
      ensures Q(a, a, [], [])
    {
      EmptyRecords(a, bn);
    }
    forall a: Record<S>, b: Record<S>, items: seq<Item>, outs: seq<seq<byte>>
      ensures Composes(R, Q, a, b, items, outs, bn)
    {
      if items != [] {
        var (m, h) := Handle(R, a, items[0], bn);
        if !h.Fatal() && Q(m, b, if h.Done? then items[1..] else items, outs) {
          HandleThenRecords(P, a, b, items, outs, bn);
        }
      }
    }
    RunInduction(R, Q, st, bn, calls);
  }

  // Counting changes nothing

  function Uncounted<S>(st: State<Record<S>>): State<Recording<S>> {
    State(st.events, st.pending, Recording(st.provider.inner.0, st.provider.validities, st.provider.payloads))
  }

  lemma CountedSource<S>(P: Provider<S>, r: Record<S>, c: AltDACommitment, bn: nat)
    ensures var (r', reply) := SourceNext(Recorder(Counted(P)), r, c, bn);
            SourceNext(Recorder(P), Recording(r.inner.0, r.validities, r.payloads), c, bn)
            == (Recording(r'.inner.0, r'.validities, r'.payloads), reply)
  {
    hide GetRbn;
  }

  lemma CountedRound<S>(P: Provider<S>, st: State<Record<S>>, bn: nat)
    ensures var (st', o) := Round(Recorder(Counted(P)), st, bn);
            Round(Recorder(P), Uncounted(st), bn) == (Uncounted(st'), o)
  {
    hide ParseCalldata, SourceNext, Codec.Decode, Recorder, Counted;
    if st.pending.Some? {
      CountedSource(P, st.provider, st.pending.value, bn);
    } else if st.events != [] && st.events[0].Data? && ParseCalldata(st.events[0].data).Some? {
      CountedSource(P, st.provider, ParseCalldata(st.events[0].data).value, bn);
    }
  }

  lemma {:induction false} CountedNext<S>(P: Provider<S>, st: State<Record<S>>, bn: nat)
    ensures var (st', r) := DeriveNext(Recorder(Counted(P)), st, bn);
            DeriveNext(Recorder(P), Uncounted(st), bn) == (Uncounted(st'), r)
    decreases st.Measure()
  {
    hide Round, Recorder, Counted;
    CountedRound(P, st, bn);
    var (st1, o) := Round(Recorder(Counted(P)), st, bn);
    if o.Continue? {
      CountedNext(P, st1, bn);
    }
  }

  /** The count is an observer: without it, the same calls give the same results and the same record. */
  lemma {:induction false} CountedRun<S>(P: Provider<S>, st: State<Record<S>>, bn: nat, calls: nat)
    ensures var (st', rs) := Run(Recorder(Counted(P)), st, bn, calls);
            Run(Recorder(P), Uncounted(st), bn, calls) == (Uncounted(st'), rs)
    decreases calls
  {
    hide DeriveNext, Recorder, Counted;
    if calls > 0 {
      CountedNext(P, st, bn);
      var (st1, r) := DeriveNext(Recorder(Counted(P)), st, bn);
      if !r.Eof? && !r.Aborted? {
        CountedRun(P, st1, bn, calls - 1);
      }
    }
  }

  // Record, then replay

  lemma {:induction false} ReplayTakesOneEach(items: seq<Item>, q: Queues, bn: nat)
    requires ReplayItems(items, q, bn).Some?
    ensures |q.validities| == |ReplayItems(items, q, bn).value.1.validities| + |CertsOf(items)|
    decreases |items|
  {
    hide Codec.Decode, GetRbn;
    if items != [] {
      ReplayTakesOneEach(items[1..], Handle(Preloaded(), q, items[0], bn).0, bn);
    }
  }

  /** The replay reaches end of data without failing, returns `outs`, and leaves both queues empty. */
  ghost predicate ReplaysExactly(q: Queues, events: seq<EthEvent>, bn: nat, calls: nat, outs: seq<seq<byte>>) {
    var (st, rs) := Run(Preloaded(), State(events, None, q), bn, calls);
    && ReachesEof(rs) && ProviderCritical !in rs
    && Outputs(rs) == outs
    && st.provider == Queues([], [])
  }

  /** A recording run to end of data, whatever failed temporarily on the way, replays exactly over the same L1
      data if and only if no payload fetch failed after its commitment was found valid. (Each such failure
      records the validity again on the retry, and the replay meets the surplus entry.) */
  lemma ReplayIffNoPayloadFailed<S(!new)>(
      P: Provider<S>, s: S, events: seq<EthEvent>, bn: nat, calls: nat, replayEvents: seq<EthEvent>, replayCalls: nat)
    requires NeverDiscards(P)
    requires DataOf(replayEvents) == DataOf(events) && replayCalls > |replayEvents|
    requires var rs := Run(Recorder(Counted(P)), State(events, None, Blank(s)), bn, calls).1;
             ReachesEof(rs) && ProviderCritical !in rs
    ensures var (st, rs) := Run(Recorder(Counted(P)), State(events, None, Blank(s)), bn, calls);
            var r := st.provider;
            ReplaysExactly(Queues(r.validities, r.payloads), replayEvents, bn, replayCalls, Outputs(rs))
            <==> Failures(r) == 0
  {
    hide Run, ReachesEof, NeverDiscards, ReplayItems, Recorder, Counted, Preloaded, Todo, Items, DataOf;
    var a := Blank(s);
    var st0, items := State(events, None, a), Items(DataOf(events));
    TodoFirst(st0);
    RunRecords(P, st0, bn, calls);
    var b := Run(Recorder(Counted(P)), st0, bn, calls).0.provider;
    var q := Queues(b.validities, b.payloads);
    assert Since(a, b) == q;
    var st1 := State(replayEvents, None, q);
    TodoFirst(st1);
    RunReplays(st1, bn, replayCalls);
    if ReplayItems(items, q, bn).Some? {
      ReplayTakesOneEach(items, q, bn);
    }
  }

  lemma CountedSizesPayloads<S(!new)>(P: Provider<S>)
    requires SizesPayloads(P)
    ensures SizesPayloads(Counted(P))
  {
    hide GetNumFieldElement;
    forall s: (S, Tally), c | Counted(P).getEncodedPayload(s, c).1.Got?
      ensures Codec.NumFieldElement(Counted(P).getEncodedPayload(s, c).1.value) == GetNumFieldElement(c)
    {
      assert P.getEncodedPayload(s.0, c).1 == Counted(P).getEncodedPayload(s, c).1;
    }
  }

  /** The whole way: what was recorded, made into a witness whose proofs pass, is always accepted by the
      preloaded provider, and replays exactly if and only if no payload fetch failed. */
  lemma RecordedWitnessReplays<S(!new)>(
      P: Provider<S>, s: S, events: seq<EthEvent>, bn: nat, calls: nat, replayEvents: seq<EthEvent>, replayCalls: nat,
      proofs: seq<KzgProof>, canoe: Option<seq<byte>>, V: Verifiers, head: L1Head, w: EigenDAWitness)
    requires NeverDiscards(P) && SizesPayloads(P)
    requires DataOf(replayEvents) == DataOf(events) && replayCalls > |replayEvents|
    requires var (st, rs) := Run(Recorder(Counted(P)), State(events, None, Blank(s)), bn, calls);
             && ReachesEof(rs) && ProviderCritical !in rs
             && FromPreimage(EigenDAPreimage(st.provider.validities, st.provider.payloads), proofs, canoe) == Success(w)
    requires w.validities != [] ==> CanoePasses(V, head, w)
    requires V.batch(Blobs(w), CommitmentPoints(w), proofs)
    ensures Accepts(V, head, w)
    ensures var (st, rs) := Run(Recorder(Counted(P)), State(events, None, Blank(s)), bn, calls);
            ReplaysExactly(Queues(w.validities, WitnessEntries(w)), replayEvents, bn, replayCalls, Outputs(rs))
            <==> Failures(st.provider) == 0
  {
    hide Run, ReachesEof, NeverDiscards, Recorder, Counted, SizesPayloads, ReplaysExactly, FromPreimage, IntoPreimage;
    hide RightSizes, IsSubsequence, DataOf, CanoePasses;
    var r := Run(Recorder(Counted(P)), State(events, None, Blank(s)), bn, calls).0.provider;
    WitnessRoundTrip(EigenDAPreimage(r.validities, r.payloads), proofs, canoe, w);
    TakenApart(w);
    CountedSizesPayloads(P);
    RecorderInvariant(Counted(P), events, (s, Tally(0, [])), bn, calls);
    ReplayIffNoPayloadFailed(P, s, events, bn, calls, replayEvents, replayCalls);
  }

  lemma TakenApart(w: EigenDAWitness)
    ensures IntoPreimage(w).0.validities == w.validities && |IntoPreimage(w).0.encodedPayloads| == |w.encodedPayloads|
  {
  }

  lemma RecorderTransparent<S>(P: Provider<S>, r: Record<S>, c: AltDACommitment, bn: nat)
    ensures SourceNext(Recorder(Counted(P)), r, c, bn).1 == SourceNext(P, r.inner.0, c, bn).1
  {
    hide GetRbn, IsRecent;
  }

  /** While the host keeps the channel and only known versions are answered valid, no run over the oracle meets a
      critical error. */
  lemma OracleRunNotCritical<Key(!new)>(
      H: AddressSpace.Hashes<Key>, host: nat -> Turn, cs: set<AltDACommitment>,
      events: seq<EthEvent>, bn: nat, calls: nat)
    requires KeepsChannel(host) && KnownVersions(H, host, cs)
    requires Within(State(events, None, Blank(Session([], 0))), cs)
    ensures var R := Recorder(Counted(OracleProvider(H, host)));
            ProviderCritical !in Run(R, State(events, None, Blank(Session([], 0))), bn, calls).1
  {
    hide Recorder, Counted, OracleProvider, Run, SourceNext, KeepsChannel, KnownVersions, About;
    var R := Recorder(Counted(OracleProvider(H, host)));
    var inv, asked := (r: Record<Session>) => true, (c: AltDACommitment) => c in cs;
    RunKeeps(R, inv, asked, State(events, None, Blank(Session([], 0))), bn, calls);
    forall r: Record<Session>, c: AltDACommitment | c in cs
      ensures SourceNext(R, r, c, bn).1 != Err(Critical)
    {
      RecorderTransparent(OracleProvider(H, host), r, c, bn);
      OracleNotCritical(H, host, cs, r.inner.0, c, bn);
    }
  }

  /** The same with nothing assumed of the provider: recorded over the oracle, whatever the host does but close the
      channel. */
  lemma RecordedOracleReplays<Key(!new)>(
      H: AddressSpace.Hashes<Key>, host: nat -> Turn, cs: set<AltDACommitment>,
      events: seq<EthEvent>, bn: nat, calls: nat, replayEvents: seq<EthEvent>, replayCalls: nat,
      proofs: seq<KzgProof>, canoe: Option<seq<byte>>, V: Verifiers, head: L1Head, w: EigenDAWitness)
    requires KeepsChannel(host) && KnownVersions(H, host, cs)
    requires Within(State(events, None, Blank(Session([], 0))), cs)
    requires DataOf(replayEvents) == DataOf(events) && replayCalls > |replayEvents|
    requires var R := Recorder(Counted(OracleProvider(H, host)));
             var (st, rs) := Run(R, State(events, None, Blank(Session([], 0))), bn, calls);
             && ReachesEof(rs)
             && FromPreimage(EigenDAPreimage(st.provider.validities, st.provider.payloads), proofs, canoe) == Success(w)
    requires w.validities != [] ==> CanoePasses(V, head, w)
    requires V.batch(Blobs(w), CommitmentPoints(w), proofs)
    ensures Accepts(V, head, w)
    ensures var R := Recorder(Counted(OracleProvider(H, host)));
            var (st, rs) := Run(R, State(events, None, Blank(Session([], 0))), bn, calls);
            ReplaysExactly(Queues(w.validities, WitnessEntries(w)), replayEvents, bn, replayCalls, Outputs(rs))
            <==> Failures(st.provider) == 0
  {
    hide Run, ReachesEof, NeverDiscards, Recorder, Counted, SizesPayloads, ReplaysExactly, FromPreimage, IntoPreimage;
    hide OracleProvider, Accepts, CanoePasses, DataOf, Blank, KeepsChannel, KnownVersions, Within;
    OracleNeverDiscards(H, host);
    OracleSizesPayloads(H, host);
    OracleRunNotCritical(H, host, cs, events, bn, calls);
    RecordedWitnessReplays(OracleProvider(H, host), Session([], 0), events, bn, calls, replayEvents, replayCalls,
                           proofs, canoe, V, head, w);
  }

  /** As many field elements as the commitment says, the first not that of an encoding. */
  function Undecodable(c: AltDACommitment): (e: seq<byte>)
    ensures |e| == 32 * GetNumFieldElement(c)
  {
    var n := GetNumFieldElement(c);
    if n == 0 then [] else [1] + Zeros(32 * n - 1)
  }

  lemma UndecodableFails(c: AltDACommitment)
    ensures Codec.Decode(Undecodable(c)).Failure?
    ensures Codec.NumFieldElement(Undecodable(c)) == GetNumFieldElement(c)
  {
    hide Codec.DecodePayload;
  }

  /** Everything is valid; the first payload fetch fails, and later ones give an undecodable payload of the right
      length. */
  function FailsOnce(): Provider<bool> {
    Provider(
      (failed, c) => (failed, Got(true)),
      (failed, c) => (true, if failed then Got(Undecodable(c)) else Err(Temporary)))
  }

  predicate Recent(c: AltDACommitment, bn: nat) {
    RecencyWindow(c.versionedCert).Success? && IsRecent(bn, GetRbn(c), RecencyWindow(c.versionedCert).value)
  }

  lemma FailsOnceRecorded(r: Record<bool>, c: AltDACommitment, bn: nat)
    requires Recent(c, bn)
    ensures var validities := r.validities + [(c, true)];
            SourceNext(Recorder(Counted(FailsOnce())), r, c, bn)
            == var t := r.inner.1.(answered := r.inner.1.answered + 1);
               if r.inner.0 then
                 (Recording((true, t), validities, r.payloads + [(c, Undecodable(c))]), Got(Undecodable(c)))
               else (Recording((true, t.(failed := t.failed + [t.answered])), validities, r.payloads), Err(Temporary))
  {
    hide GetRbn;
    var R := Recorder(Counted(FailsOnce()));
    var t := r.inner.1.(answered := r.inner.1.answered + 1);
    assert R.getValidity(r, c) == (Recording((r.inner.0, t), r.validities + [(c, true)], r.payloads), Got(true));
  }

  lemma UndecodableDiscarded<S>(P: Provider<S>, st: State<S>, c: AltDACommitment, bn: nat, s': S)
    requires Todo(st) != [] && Todo(st)[0] == Cert(c)
    requires st.pending == Some(c) || (st.pending == None && st.events != [] && st.events[0].Data?)
    requires SourceNext(P, st.provider, c, bn) == (s', Got(Undecodable(c)))
    ensures DeriveNext(P, st, bn)
            == DeriveNext(P, State(if st.pending.Some? then st.events else st.events[1..], None, s'), bn)
  {
    hide ParseCalldata, SourceNext, GetRbn, Codec.Decode, Undecodable;
    if st.pending == None {
      TodoFirst(st);
    }
    UndecodableFails(c);
  }

  lemma SurplusAborts(d1: seq<byte>, d2: seq<byte>, c1: AltDACommitment, c2: AltDACommitment, bn: nat)
    requires ItemOf(d1) == Cert(c1) && ItemOf(d2) == Cert(c2) && c1 != c2 && Recent(c1, bn)
    ensures var q := Queues([(c1, true), (c1, true), (c2, true)], [(c1, Undecodable(c1)), (c2, Undecodable(c2))]);
            Run(Preloaded(), State([Data(d1), Data(d2)], None, q), bn, 1).1 == [Aborted]
  {
    hide ParseCalldata, Codec.Decode, GetRbn, Undecodable;
    var q := Queues([(c1, true), (c1, true), (c2, true)], [(c1, Undecodable(c1)), (c2, Undecodable(c2))]);
    var q1 := Queues([(c1, true), (c2, true)], [(c2, Undecodable(c2))]);
    var st := State([Data(d1), Data(d2)], None, q);
    assert q.validities[1..] == q1.validities && q.payloads[1..] == q1.payloads;
    UndecodableDiscarded(Preloaded(), st, c1, bn, q1);
    assert st.events[1..] == [Data(d2)];
    assert DeriveNext(Preloaded(), State([Data(d2)], None, q1), bn).1 == Aborted;
  }

  lemma FailsOnceProvides()
    ensures NeverDiscards(FailsOnce()) && SizesPayloads(FailsOnce())
  {
    hide Undecodable, GetNumFieldElement;
    forall s: bool, c: AltDACommitment
      ensures var reply := FailsOnce().getEncodedPayload(s, c).1;
              reply.Got? ==> Codec.NumFieldElement(reply.value) == GetNumFieldElement(c)
    {
      UndecodableFails(c);
    }
  }

  /** One failed payload fetch, then a different commitment: the recording run gets to end of data, and its record
      has a surplus validity. */
  lemma RetriedRecord(d1: seq<byte>, d2: seq<byte>, c1: AltDACommitment, c2: AltDACommitment, bn: nat)
    requires ItemOf(d1) == Cert(c1) && ItemOf(d2) == Cert(c2) && c1 != c2
    requires Recent(c1, bn) && Recent(c2, bn)
    ensures var events := [Data(d1), Data(d2)];
            var (st, rs) := Run(Recorder(Counted(FailsOnce())), State(events, None, Blank(false)), bn, 2);
            var q := Queues(st.provider.validities, st.provider.payloads);
            && rs == [ProviderTemporary, Eof]
            && q == Queues([(c1, true), (c1, true), (c2, true)], [(c1, Undecodable(c1)), (c2, Undecodable(c2))])
            && Run(Preloaded(), State(events, None, q), bn, 1).1 == [Aborted]
  {
    hide ItemOf, Recent, Recorder, Counted, Todo, DeriveNext, Undecodable;
    var R := Recorder(Counted(FailsOnce()));
    var st0 := State([Data(d1), Data(d2)], None, Blank(false));
    var st1 := State([Data(d2)], Some(c1), Recording((true, Tally(1, [1])), [(c1, true)], []));
    var st2 := State([Data(d2)], None, Recording(
      (true, Tally(2, [1])), [(c1, true), (c1, true)], [(c1, Undecodable(c1))]));
    var st3 := State([], None, Recording(
      (true, Tally(3, [1])), [(c1, true), (c1, true), (c2, true)], [(c1, Undecodable(c1)), (c2, Undecodable(c2))]));
    FirstFetchFails(d1, d2, c1, bn);
    TodoHeld(st1, c1);
    FailsOnceRecorded(st1.provider, c1, bn);
    assert st1.provider.validities + [(c1, true)] == st2.provider.validities;
    assert st1.provider.payloads + [(c1, Undecodable(c1))] == st2.provider.payloads;
    UndecodableDiscarded(R, st1, c1, bn, st2.provider);
    TodoFirst(st2);
    FailsOnceRecorded(st2.provider, c2, bn);
    assert st2.provider.validities + [(c2, true)] == st3.provider.validities;
    assert st2.provider.payloads + [(c2, Undecodable(c2))] == st3.provider.payloads;
    UndecodableDiscarded(R, st2, c2, bn, st3.provider);
    NothingLeft(R, st3, bn);
    assert Run(R, st1, bn, 1) == (st3, [Eof]);
    SurplusAborts(d1, d2, c1, c2, bn);
  }

  lemma FirstFetchFails(d1: seq<byte>, d2: seq<byte>, c: AltDACommitment, bn: nat)
    requires ItemOf(d1) == Cert(c) && Recent(c, bn)
    ensures DeriveNext(Recorder(Counted(FailsOnce())), State([Data(d1), Data(d2)], None, Blank(false)), bn)
            == (State([Data(d2)], Some(c), Recording((true, Tally(1, [1])), [(c, true)], [])), ProviderTemporary)
  {
    hide ParseCalldata, Codec.Decode, GetRbn, Recorder, Counted, SourceNext;
    assert [Data(d1), Data(d2)][1..] == [Data(d2)];
    FailsOnceRecorded(Blank(false), c, bn);
    assert [] + [(c, true)] == [(c, true)] && [] + [1 as nat] == [1];
  }

  lemma TodoHeld<S>(st: State<S>, c: AltDACommitment)
    requires st.pending == Some(c)
    ensures Todo(st) != [] && Todo(st)[0] == Cert(c)
  {
  }

  lemma NothingLeft<S>(P: Provider<S>, st: State<S>, bn: nat)
    requires st.events == [] && st.pending == None
    ensures DeriveNext(P, st, bn) == (st, Eof)
  {
  }

  /** Where replaying goes wrong: a witness made of that record, with proofs that pass, is accepted by the preloaded
      provider, and the replay aborts. */
  lemma RetriedPayloadAborts(
      d1: seq<byte>, d2: seq<byte>, c1: AltDACommitment, c2: AltDACommitment, bn: nat,
      proofs: seq<KzgProof>, canoe: Option<seq<byte>>, V: Verifiers, head: L1Head, w: EigenDAWitness)
    requires ItemOf(d1) == Cert(c1) && ItemOf(d2) == Cert(c2) && c1 != c2
    requires Recent(c1, bn) && Recent(c2, bn)
    requires var start := State([Data(d1), Data(d2)], None, Blank(false));
             var r := Run(Recorder(Counted(FailsOnce())), start, bn, 2).0.provider;
             FromPreimage(EigenDAPreimage(r.validities, r.payloads), proofs, canoe) == Success(w)
    requires CanoePasses(V, head, w) && V.batch(Blobs(w), CommitmentPoints(w), proofs)
    ensures var events := [Data(d1), Data(d2)];
            && Run(Recorder(Counted(FailsOnce())), State(events, None, Blank(false)), bn, 2).1
               == [ProviderTemporary, Eof]
            && Accepts(V, head, w)
            && Run(Preloaded(), State(events, None, Queues(w.validities, WitnessEntries(w))), bn, 1).1 == [Aborted]
  {
    hide Run, Recorder, Counted, Preloaded, FailsOnce, ItemOf, Recent, Blank, FromPreimage, IntoPreimage, Accepts;
    hide CanoePasses, NeverDiscards, SizesPayloads, Undecodable, Blobs, CommitmentPoints;
    var events := [Data(d1), Data(d2)];
    var r := Run(Recorder(Counted(FailsOnce())), State(events, None, Blank(false)), bn, 2).0.provider;
    RetriedRecord(d1, d2, c1, c2, bn);
    FailsOnceProvides();
    RecordedWitnessReplays(FailsOnce(), false, events, bn, 2, events, 3, proofs, canoe, V, head, w);
    WitnessRoundTrip(EigenDAPreimage(r.validities, r.payloads), proofs, canoe, w);
    TakenApart(w);
  }
}

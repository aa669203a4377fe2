/**
 The fingerprint scheme recorded per scan source, and the handshake that guards the sweep with it.

 Reading the recorded scheme and recording a declared one are two transactions before the write window.
 */
module FingerprintSchemes {
  import opened Wrappers
  import ScanIngest

  type Source = string
  type Scheme = string
  type Schemes = map<Source, Scheme>

  /** "" stands for no baseline yet, and for a caller that declares nothing. */
  function StoredScheme(schemes: Schemes, source: Source): Scheme
  {
    if source in schemes then schemes[source] else ""
  }

  predicate Mismatch(stored: Scheme, declared: Scheme)
  {
    declared != "" && stored != "" && declared != stored
  }

  /** A mismatch refuses the sweep whatever the caller asked for. */
  function EffectiveMark(stored: Scheme, declared: Scheme, markUnseen: bool): bool
  {
    markUnseen && !Mismatch(stored, declared)
  }

  function Record(schemes: Schemes, source: Source, declared: Scheme): Schemes
  {
    if declared == "" then schemes else schemes[source := declared]
  }

  datatype Call = Call(source: Source, declared: Scheme, markUnseen: bool)

  // An ingest that happened, and whether it swept.
  datatype Entry = Entry(source: Source, declared: Scheme, swept: bool)

  datatype History = History(schemes: Schemes, log: seq<Entry>)

  // ---------------------------------------------------------------------------------------
  // One call after the other
  // ---------------------------------------------------------------------------------------

  function Process(h: History, c: Call): History
  {
    var stored := StoredScheme(h.schemes, c.source);
    History(if Mismatch(stored, c.declared) then h.schemes else Record(h.schemes, c.source, c.declared),
            h.log + [Entry(c.source, c.declared, EffectiveMark(stored, c.declared, c.markUnseen))])
  }

  function ProcessAll(h: History, calls: seq<Call>): History
  {
    if calls == [] then h else Process(ProcessAll(h, calls[..|calls| - 1]), calls[|calls| - 1])
  }

  /** A recorded scheme stays as it is. */
  ghost predicate Extends(a: Schemes, b: Schemes)
  {
    forall s | StoredScheme(a, s) != "" :: StoredScheme(b, s) == StoredScheme(a, s)
  }

  /** Every sweep came from a batch that declared the recorded scheme, or none. */
  ghost predicate SweepsMatch(h: History)
  {
    forall e | e in h.log && e.swept && e.declared != "" :: StoredScheme(h.schemes, e.source) == e.declared
  }

  /** Over every run of ingests one after the other, recorded schemes never change and every sweep in history
      matches them. */
  lemma {:induction false} SchemesAreImmutable(h: History, calls: seq<Call>)
    requires SweepsMatch(h)
    ensures Extends(h.schemes, ProcessAll(h, calls).schemes) && SweepsMatch(ProcessAll(h, calls))
  {
    if calls != [] {
      SchemesAreImmutable(h, calls[..|calls| - 1]);
      var mid, c := ProcessAll(h, calls[..|calls| - 1]), calls[|calls| - 1];
      ProcessKeeps(mid, c);
    }
  }

  lemma ProcessKeeps(h: History, c: Call)
    requires SweepsMatch(h)
    ensures Extends(h.schemes, Process(h, c).schemes) && SweepsMatch(Process(h, c))
  {
  }

  /** A call sweeps exactly when it asked to and did not declare a scheme other than the recorded one; and afterwards
      the source has the recorded scheme, or the declared one where none was recorded. */
  lemma ProcessMeans(h: History, c: Call)
    ensures var h' := Process(h, c);
      var recorded := StoredScheme(h.schemes, c.source);
      && h'.log == h.log + [Entry(c.source, c.declared,
                                  c.markUnseen && (recorded == "" || c.declared == "" || c.declared == recorded))]
      && StoredScheme(h'.schemes, c.source) == (if recorded != "" then recorded else c.declared)
      && forall s | s != c.source :: StoredScheme(h'.schemes, s) == StoredScheme(h.schemes, s)
  {
  }

  /** A batch whose declared scheme differs from the recorded one marks no finding unseen and resolves none, so
      it closes no issue. */
  lemma MismatchSweepsNothing(h: History, c: Call, b: ScanIngest.Batch, before: ScanIngest.Work, after: ScanIngest.Work,
                              resolved: set<(nat, ScanIngest.IssueId)>)
    requires Mismatch(StoredScheme(h.schemes, c.source), c.declared) && b.source == c.source
    requires b.markUnseen == EffectiveMark(StoredScheme(h.schemes, c.source), c.declared, c.markUnseen)
    requires ScanIngest.CleanRun(before, b, ScanIngest.Committed, after, resolved)
    ensures resolved == {} && Process(h, c).schemes == h.schemes
    ensures |before.findings| <= |after.findings|
    ensures forall k | 0 <= k < |after.findings| && after.findings[k].status.UnseenInLatest? ::
      k < |before.findings| && after.findings[k] == before.findings[k]
  {
    var w := ScanIngest.Steps(ScanIngest.Start(before.files, before.findings), b, b.reports).value;
    ScanIngest.SweepIsExact(before.files, before.findings, b, w, resolved);
    ScanIngest.NoSweepNoResolve(b, w, resolved);
  }

  // ---------------------------------------------------------------------------------------
  // Concurrent calls: another call can record between a call's read and its own record
  // ---------------------------------------------------------------------------------------

  type Tid = nat

  datatype Pc = Idle | HasRead(call: Call, stored: Scheme) | Ready(call: Call, mark: bool)

  datatype Sys = Sys(history: History, pcs: map<Tid, Pc>)

  datatype Action = Read(t: Tid, call: Call) | Advance(t: Tid)

  function PcOf(s: Sys, t: Tid): Pc
  {
    if t in s.pcs then s.pcs[t] else Idle
  }

  function Apply(s: Sys, a: Action): Sys
  {
    match a
    case Read(t, call) =>
      if PcOf(s, t).Idle? then s.(pcs := s.pcs[t := HasRead(call, StoredScheme(s.history.schemes, call.source))]) else s
    case Advance(t) =>
      match PcOf(s, t) {
        case Idle => s
        case HasRead(call, stored) =>
          var schemes := if Mismatch(stored, call.declared) then s.history.schemes
            else Record(s.history.schemes, call.source, call.declared);
          Sys(s.history.(schemes := schemes),
            s.pcs[t := Ready(call, EffectiveMark(stored, call.declared, call.markUnseen))])
        case Ready(call, mark) =>
          Sys(s.history.(log := s.history.log + [Entry(call.source, call.declared, mark)]), s.pcs[t := Idle])
      }
  }

  function ApplyAll(s: Sys, actions: seq<Action>): Sys
  {
    if actions == [] then s else Apply(ApplyAll(s, actions[..|actions| - 1]), actions[|actions| - 1])
  }

  /** What a call is about to record would overwrite a baseline recorded since it read. */
  predicate Raced(s: Sys, a: Action)
  {
    a.Advance? && PcOf(s, a.t).HasRead? &&
    var pc := PcOf(s, a.t);
    var now := StoredScheme(s.history.schemes, pc.call.source);
    !Mismatch(pc.stored, pc.call.declared) && Mismatch(now, pc.call.declared)
  }

  /** A step overwrites a recorded scheme exactly when it is raced, and then some other call recorded after this
      one had read. */
  lemma StepKeepsSchemesIff(s: Sys, a: Action)
    ensures Extends(s.history.schemes, Apply(s, a).history.schemes) <==> !Raced(s, a)
    ensures Raced(s, a) ==> PcOf(s, a.t).stored != StoredScheme(s.history.schemes, PcOf(s, a.t).call.source)
  {
    if Raced(s, a) {
      var call := PcOf(s, a.t).call;
      assert StoredScheme(Apply(s, a).history.schemes, call.source) == call.declared;
    }
  }

  ghost predicate Unraced(s: Sys, actions: seq<Action>)
  {
    actions != [] ==>
      && Unraced(s, actions[..|actions| - 1])
      && !Raced(ApplyAll(s, actions[..|actions| - 1]), actions[|actions| - 1])
  }

  // Schemes that ready calls rely on.
  ghost predicate Consistent(s: Sys)
  {
    && SweepsMatch(s.history)
    && forall t: Tid :: PcOf(s, t).Ready? ==>
         var pc := PcOf(s, t);
         pc.mark && pc.call.declared != "" ==> StoredScheme(s.history.schemes, pc.call.source) == pc.call.declared
  }

  lemma StepKeepsConsistent(s: Sys, a: Action)
    requires Consistent(s) && !Raced(s, a)
    ensures Consistent(Apply(s, a))
  {
    StepKeepsSchemesIff(s, a);
    var s' := Apply(s, a);
    forall t: Tid | PcOf(s', t).Ready? && PcOf(s', t).mark && PcOf(s', t).call.declared != ""
      ensures StoredScheme(s'.history.schemes, PcOf(s', t).call.source) == PcOf(s', t).call.declared
    {
      if a.Advance? && t == a.t {
        assert PcOf(s, t).HasRead?;
      } else {
        assert PcOf(s, t).Ready?;
      }
    }
  }

  /** While no call records over a baseline that appeared after it read, concurrent ingests keep schemes immutable
      and every sweep matches them. */
  lemma {:induction false} UnracedRunsKeepSchemes(s: Sys, actions: seq<Action>)
    requires Consistent(s) && Unraced(s, actions)
    ensures Consistent(ApplyAll(s, actions)) && Extends(s.history.schemes, ApplyAll(s, actions).history.schemes)
  {
    if actions != [] {
      var init, a := actions[..|actions| - 1], actions[|actions| - 1];
      UnracedRunsKeepSchemes(s, init);
      StepKeepsConsistent(ApplyAll(s, init), a);
      StepKeepsSchemesIff(ApplyAll(s, init), a);
    }
  }

  /** Two first ingests of a source that declare different schemes at the same time: the later record overwrites
      the earlier, and both sweep. */
  lemma RacedBaselineIsOverwritten(source: Source)
    ensures var s := ApplyAll(Sys(History(map[], []), map[]),
        [Read(0, Call(source, "wlfp2", true)), Read(1, Call(source, "wlfp3", true)),
         Advance(0), Advance(0), Advance(1), Advance(1)]);
      && StoredScheme(s.history.schemes, source) == "wlfp3"
      && s.history.log == [Entry(source, "wlfp2", true), Entry(source, "wlfp3", true)]
      && !SweepsMatch(s.history)
  {
    var a, b := Call(source, "wlfp2", true), Call(source, "wlfp3", true);
    var run := [Read(0, a), Read(1, b), Advance(0), Advance(0), Advance(1), Advance(1)];
    var s0 := Sys(History(map[], []), map[]);
    assert run[..5][..4] == run[..4] && run[..4][..3] == run[..3] && run[..3][..2] == run[..2]
      && run[..2][..1] == run[..1] && run[..1][..0] == [];
    assert ApplyAll(s0, run[..1]) == Apply(s0, run[0]);
    var s2 := Apply(Apply(s0, run[0]), run[1]);
    assert ApplyAll(s0, run[..2]) == s2;
    var s4 := Apply(Apply(s2, run[2]), run[3]);
    assert ApplyAll(s0, run[..3]) == Apply(s2, run[2]) && ApplyAll(s0, run[..4]) == s4;
    var s6 := Apply(Apply(s4, run[4]), run[5]);
    assert ApplyAll(s0, run[..5]) == Apply(s4, run[4]) && ApplyAll(s0, run) == s6;
    assert s6.history.log[0] in s6.history.log;
  }
}

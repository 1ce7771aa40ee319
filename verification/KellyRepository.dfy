/** The repository methods of the KellyLab portfolio, over its tables. */
module KellyRepository {
  import opened Wrappers
  import opened Settlement
  import opened Sorting
  import opened KellyLab
  import opened KellyPortfolio

  datatype SyncSummary = SyncSummary(candidates: nat, inserted: nat, skippedScope: nat)

  function CountOutOfScope(t: Tables, candidates: seq<Signal>): nat {
    if candidates == [] then 0
    else CountOutOfScope(t, candidates[..|candidates| - 1]) + if InScope(t, candidates[|candidates| - 1]) then 0 else 1
  }

  lemma {:induction false} SyncKeepsSources(t: Tables, candidates: seq<Signal>, c: Config)
    ensures var u := SyncOver(t, candidates, c);
            && u.signals == t.signals && u.results == t.results && u.blocked == t.blocked
            && |u.picks| == |t.picks| + |candidates| - CountOutOfScope(t, candidates)
            && t.picks <= u.picks
  {
    if candidates != [] {
      SyncKeepsSources(t, candidates[..|candidates| - 1], c);
    }
  }

  class Portfolio {
    const config: Config
    var signals: seq<Signal>
    var results: seq<Observation>
    var blocked: set<nat>
    var picks: seq<Pick>

    function Stored(): Tables
      reads this
    {
      Tables(signals, results, blocked, picks)
    }

    constructor (config: Config)
      ensures this.config == config && Stored() == EMPTY
    {
      this.config := config;
      signals, results, blocked, picks := [], [], {}, [];
    }

    method BankrollBefore(cutoff: int) returns (bankroll: int)
      ensures bankroll == BankrollAt(picks, results, config.starting, cutoff) && bankroll >= 1
    {
      var rows := Sort(PicksBefore(picks, cutoff), DecidedEarlier);
      var balance := config.starting;
      for i := 0 to |rows|
        invariant balance == config.starting + SumPnl(rows[..i], results, cutoff)
      {
        assert rows[..i + 1][..i] == rows[..i];
        var latest := Latest(results, rows[i].fixture, cutoff);
        if latest.Some? {
          var pnl := PnlMinor(rows[i].plan.stake, rows[i].odds,
                              RowOutcome(rows[i].market, rows[i].selection, latest.value.result));
          if pnl.Some? {
            balance := balance + pnl.value;
          }
        }
      }
      assert rows[..|rows|] == rows;
      bankroll := if balance < 1 then 1 else balance;
    }

    method SyncNewPicks() returns (summary: SyncSummary)
      modifies this`picks
      ensures Stored() == Sync(old(Stored()), config)
      ensures summary.candidates == |Candidates(old(Stored()), config)| == summary.inserted + summary.skippedScope
      ensures summary.inserted == |picks| - |old(picks)|
    {
      ghost var start := Stored();
      var candidates := Candidates(Stored(), config);
      var inserted, skipped: nat := 0, 0;
      for i := 0 to |candidates|
        invariant Stored() == SyncOver(start, candidates[..i], config)
        invariant skipped == CountOutOfScope(start, candidates[..i]) && inserted + skipped == i
      {
        assert candidates[..i + 1][..i] == candidates[..i];
        SyncKeepsSources(start, candidates[..i], config);
        var s := candidates[i];
        if !InScope(Stored(), s) {
          skipped := skipped + 1;
          continue;
        }
        FreezeNeverRaises(Stored(), s, config);
        var prior := PriorRows(signals, results, blocked, s.qualifiedAt);
        var snapshot := CalibrationSnapshot(s, prior, config.priorN);
        var bankroll := BankrollBefore(s.qualifiedAt);
        var plan := StakePlan(bankroll, s.odds, snapshot.value.calibration.probability, config.fraction, config.cap);
        picks := picks + [Pick(s.id, s.fixture, s.qualifiedAt, s.market, s.selection, s.odds,
                               snapshot.value.calibration, bankroll, plan.value)];
        inserted := inserted + 1;
      }
      assert candidates[..|candidates|] == candidates;
      SyncKeepsSources(start, candidates, config);
      return SyncSummary(|candidates|, inserted, skipped);
    }
  }
}

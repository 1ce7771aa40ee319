/** The close is the greatest valid quote, and nothing learned later changes what was known before the cutoff. */
module ClosingTheorems {
  import opened Wrappers
  import opened Sorting
  import opened Monitoring
  import opened MonitoringTheorems
  import QuoteHistory

  ghost predicate KeyedQuotes(quotes: seq<Quote>) {
    forall i, j | 0 <= i < j < |quotes| :: quotes[i].id != quotes[j].id
  }

  // ----- what the queries mean -----

  lemma {:induction false} ValidQuotesExact(quotes: seq<Quote>, sightings: seq<Sighting>, c: Context, cutoff: int, available: int)
    ensures forall q :: q in ValidQuotes(quotes, sightings, c, cutoff, available)
                    <==> q in quotes && ValidQuote(sightings, c, cutoff, available, q)
  {
    if quotes != [] {
      ValidQuotesExact(quotes[..|quotes| - 1], sightings, c, cutoff, available);
      assert quotes == quotes[..|quotes| - 1] + [quotes[|quotes| - 1]];
    }
  }

  lemma {:induction false} ValidQuotesKeyed(quotes: seq<Quote>, sightings: seq<Sighting>, c: Context, cutoff: int, available: int)
    requires KeyedQuotes(quotes)
    ensures KeyedQuotes(ValidQuotes(quotes, sightings, c, cutoff, available))
  {
    if quotes != [] {
      var front, last := quotes[..|quotes| - 1], quotes[|quotes| - 1];
      ValidQuotesKeyed(front, sightings, c, cutoff, available);
      ValidQuotesExact(front, sightings, c, cutoff, available);
      var valid := ValidQuotes(front, sightings, c, cutoff, available);
      forall i | 0 <= i < |valid| ensures valid[i].id != last.id {
        assert valid[i] in front;
      }
    }
  }

  lemma SameQuoteId(quotes: seq<Quote>, a: Quote, b: Quote)
    requires KeyedQuotes(quotes) && a in quotes && b in quotes && a.id == b.id
    ensures a == b
  {
    var i :| 0 <= i < |quotes| && quotes[i] == a;
    var j :| 0 <= j < |quotes| && quotes[j] == b;
  }

  lemma QuoteOrdersAreTotal(quotes: seq<Quote>)
    requires KeyedQuotes(quotes)
    ensures StrictOrderOn(CapturedFirst, Elements(quotes)) && StrictOrderOn(ObservedLast, Elements(quotes))
  {
    forall a, b | a in quotes && b in quotes && a != b ensures a.id != b.id {
      if a.id == b.id {
        SameQuoteId(quotes, a, b);
      }
    }
  }

  ghost predicate FirstOf(before: (Quote, Quote) -> bool, quotes: seq<Quote>, first: Option<Quote>) {
    && (first.None? <==> quotes == [])
    && (first.Some? ==> first.value in quotes && forall q | q in quotes && q != first.value :: before(first.value, q))
  }

  lemma FirstOfSort(quotes: seq<Quote>, before: (Quote, Quote) -> bool)
    requires StrictOrderOn(before, Elements(quotes))
    ensures FirstOf(before, quotes, First(Sort(quotes, before)))
  {
    var sorted := Sort(quotes, before);
    SortPermutes(quotes, before);
    SortSorts(quotes, before);
    if quotes != [] {
      assert sorted[0] in Elements(sorted);
      forall q | q in quotes && q != sorted[0] ensures before(sorted[0], q) {
        assert q in Elements(sorted);
        var i :| 0 <= i < |sorted| && sorted[i] == q;
      }
    }
  }

  // The close is the one valid quote after which no valid quote was observed, the opening the one
  // before which none was captured; the history holds every valid quote once and starts with the opening.
  lemma QueriesExact(quotes: seq<Quote>, sightings: seq<Sighting>, c: Context, cutoff: int, available: int)
    requires KeyedQuotes(quotes)
    ensures var valid := ValidQuotes(quotes, sightings, c, cutoff, available);
            var history := History(quotes, sightings, c, cutoff, available);
            && FirstOf(ObservedLast, valid, Latest(quotes, sightings, c, cutoff, available))
            && FirstOf(CapturedFirst, valid, Opening(quotes, sightings, c, cutoff, available))
            && First(history) == Opening(quotes, sightings, c, cutoff, available)
            && multiset(history) == multiset(valid) && Distinct(history) && Sorted(CapturedFirst, history)
            && forall q :: q in valid <==> q in quotes && ValidQuote(sightings, c, cutoff, available, q)
  {
    var valid := ValidQuotes(quotes, sightings, c, cutoff, available);
    ValidQuotesExact(quotes, sightings, c, cutoff, available);
    ValidQuotesKeyed(quotes, sightings, c, cutoff, available);
    QuoteOrdersAreTotal(valid);
    FirstOfSort(valid, ObservedLast);
    FirstOfSort(valid, CapturedFirst);
    SortPermutes(valid, CapturedFirst);
    SortSorts(valid, CapturedFirst);
    PermutationDistinct(valid, History(quotes, sightings, c, cutoff, available));
  }

  // ----- what arrives after the cutoff changes nothing -----

  lemma ValidQuoteIgnoresLateSighting(sightings: seq<Sighting>, s: Sighting, c: Context, cutoff: int, available: int, q: Quote)
    requires s.persistedAt >= cutoff
    ensures ValidQuote(sightings + [s], c, cutoff, available, q) == ValidQuote(sightings, c, cutoff, available, q)
  {
    assert (sightings + [s])[..|sightings|] == sightings;
  }

  lemma {:induction false} ValidQuotesIgnoreLateSighting(quotes: seq<Quote>, sightings: seq<Sighting>, s: Sighting,
                                                         c: Context, cutoff: int, available: int)
    requires s.persistedAt >= cutoff
    ensures ValidQuotes(quotes, sightings + [s], c, cutoff, available) == ValidQuotes(quotes, sightings, c, cutoff, available)
  {
    if quotes != [] {
      ValidQuotesIgnoreLateSighting(quotes[..|quotes| - 1], sightings, s, c, cutoff, available);
      ValidQuoteIgnoresLateSighting(sightings, s, c, cutoff, available, quotes[|quotes| - 1]);
    }
  }

  lemma ValidQuotesAppend(quotes: seq<Quote>, q: Quote, sightings: seq<Sighting>, c: Context, cutoff: int, available: int)
    ensures ValidQuotes(quotes + [q], sightings, c, cutoff, available)
            == ValidQuotes(quotes, sightings, c, cutoff, available)
               + if ValidQuote(sightings, c, cutoff, available, q) then [q] else []
  {
    assert (quotes + [q])[..|quotes|] == quotes;
  }

  lemma {:induction false} ValidQuotesPointInTime(quotes: seq<Quote>, more: seq<Quote>, sightings: seq<Sighting>,
                                                  seen: seq<Sighting>, c: Context, cutoff: int, available: int)
    requires forall q | q in more :: q.capturedAt >= cutoff
    requires forall s | s in seen :: s.persistedAt >= cutoff
    ensures ValidQuotes(quotes + more, sightings + seen, c, cutoff, available)
            == ValidQuotes(quotes, sightings, c, cutoff, available)
    decreases |more| + |seen|
  {
    if more != [] {
      var front, last := more[..|more| - 1], more[|more| - 1];
      assert quotes + more == (quotes + front) + [last];
      ValidQuotesPointInTime(quotes, front, sightings, seen, c, cutoff, available);
      ValidQuotesAppend(quotes + front, last, sightings + seen, c, cutoff, available);
    } else if seen != [] {
      var front, last := seen[..|seen| - 1], seen[|seen| - 1];
      assert sightings + seen == (sightings + front) + [last] && quotes + more == quotes;
      ValidQuotesPointInTime(quotes, more, sightings, front, c, cutoff, available);
      ValidQuotesIgnoreLateSighting(quotes, sightings + front, last, c, cutoff, available);
    } else {
      assert quotes + more == quotes && sightings + seen == sightings;
    }
  }

  // For a fixed cutoff, quotes captured and fixture observations persisted at or after it
  // change neither the candidate nor the opening nor the history.
  lemma PointInTimeStable(quotes: seq<Quote>, more: seq<Quote>, sightings: seq<Sighting>, seen: seq<Sighting>,
                          c: Context, cutoff: int, available: int)
    requires forall q | q in more :: q.capturedAt >= cutoff
    requires forall s | s in seen :: s.persistedAt >= cutoff
    ensures Latest(quotes + more, sightings + seen, c, cutoff, available) == Latest(quotes, sightings, c, cutoff, available)
    ensures Opening(quotes + more, sightings + seen, c, cutoff, available) == Opening(quotes, sightings, c, cutoff, available)
    ensures History(quotes + more, sightings + seen, c, cutoff, available) == History(quotes, sightings, c, cutoff, available)
  {
    ValidQuotesPointInTime(quotes, more, sightings, seen, c, cutoff, available);
  }

  // A quote stored late changes the history exactly when it is itself valid, and the candidate
  // exactly when it also comes after it.
  lemma LateQuoteExactly(quotes: seq<Quote>, q: Quote, sightings: seq<Sighting>, c: Context, cutoff: int, available: int)
    requires KeyedQuotes(quotes + [q])
    ensures var valid := ValidQuote(sightings, c, cutoff, available, q);
            var latest := Latest(quotes, sightings, c, cutoff, available);
            && (History(quotes + [q], sightings, c, cutoff, available) != History(quotes, sightings, c, cutoff, available) <==> valid)
            && (Latest(quotes + [q], sightings, c, cutoff, available) != latest <==>
                 valid && (latest.None? || ObservedLast(q, latest.value)))
  {
    var before := ValidQuotes(quotes, sightings, c, cutoff, available);
    var after := ValidQuotes(quotes + [q], sightings, c, cutoff, available);
    ValidQuotesAppend(quotes, q, sightings, c, cutoff, available);
    if ValidQuote(sightings, c, cutoff, available, q) {
      assert (quotes + [q])[..|quotes|] == quotes;
      ValidQuotesKeyed(quotes + [q], sightings, c, cutoff, available);
      assert after == before + [q];
      assert KeyedQuotes(before) by {
        assert forall i | 0 <= i < |before| :: before[i] == after[i];
      }
      SortPermutes(before, CapturedFirst);
      SortPermutes(after, CapturedFirst);
      LatestAfterAppend(before, q);
    } else {
      assert after == before;
    }
  }

  lemma LatestAfterAppend(before: seq<Quote>, q: Quote)
    requires KeyedQuotes(before + [q]) && KeyedQuotes(before)
    ensures var latest := First(Sort(before, ObservedLast));
            First(Sort(before + [q], ObservedLast)) != latest <==> latest.None? || ObservedLast(q, latest.value)
  {
    var after := before + [q];
    assert after[|before|] == q && forall x :: x in after <==> x in before || x == q;
    QuoteOrdersAreTotal(before);
    QuoteOrdersAreTotal(after);
    FirstOfSort(before, ObservedLast);
    FirstOfSort(after, ObservedLast);
    forall x | x in before ensures x != q {
      var i :| 0 <= i < |before| && before[i] == x;
      assert after[i] == x;
    }
    FirstAfterAppend(before, q, First(Sort(before, ObservedLast)), First(Sort(after, ObservedLast)));
  }

  lemma FirstAfterAppend(before: seq<Quote>, q: Quote, first: Option<Quote>, next: Option<Quote>)
    requires q !in before && FirstOf(ObservedLast, before, first) && FirstOf(ObservedLast, before + [q], next)
    ensures next != first <==> first.None? || ObservedLast(q, first.value)
  {
    var after := before + [q];
    assert after != [] && q in after && next.Some?;
    if first.Some? {
      assert first.value in after;
      if next != first {
        assert ObservedLast(next.value, first.value);
      } else {
        assert ObservedLast(next.value, q);
      }
    }
  }

  // A sighting that becomes visible late takes over the view of a quote's capture, and judges the
  // quote the other way.
  predicate Overturns(sightings: seq<Sighting>, s: Sighting, c: Context, q: Quote) {
    var known := LatestSighting(sightings, c.fixture, q.capturedAt);
    && SeenBy(s, c.fixture, q.capturedAt) && ObservedAfter(s, known)
    && (Admits(Some(s), c, q) <==> !Admits(known, c, q))
  }

  lemma ValidityFlipsExactly(sightings: seq<Sighting>, s: Sighting, c: Context, cutoff: int, available: int, q: Quote)
    ensures (ValidQuote(sightings + [s], c, cutoff, available, q) <==> ValidQuote(sightings, c, cutoff, available, q))
            <==> !(InWindow(c, cutoff, available, q) && Overturns(sightings, s, c, q))
  {
    assert (sightings + [s])[..|sightings|] == sightings;
  }

  lemma {:induction false} SameValidQuotes(quotes: seq<Quote>, sightings: seq<Sighting>, sightings': seq<Sighting>,
                                           c: Context, cutoff: int, available: int)
    requires forall q | q in quotes ::
               ValidQuote(sightings', c, cutoff, available, q) <==> ValidQuote(sightings, c, cutoff, available, q)
    ensures ValidQuotes(quotes, sightings', c, cutoff, available) == ValidQuotes(quotes, sightings, c, cutoff, available)
  {
    if quotes != [] {
      assert forall q | q in quotes[..|quotes| - 1] :: q in quotes;
      SameValidQuotes(quotes[..|quotes| - 1], sightings, sightings', c, cutoff, available);
    }
  }

  // A fixture observation that becomes visible late changes the history exactly when it overturns
  // the judgement of a stored quote of the window.
  lemma LateSightingExactly(quotes: seq<Quote>, sightings: seq<Sighting>, s: Sighting, c: Context, cutoff: int, available: int)
    requires KeyedQuotes(quotes)
    ensures History(quotes, sightings + [s], c, cutoff, available) != History(quotes, sightings, c, cutoff, available)
            <==> exists q | q in quotes :: InWindow(c, cutoff, available, q) && Overturns(sightings, s, c, q)
  {
    var before := ValidQuotes(quotes, sightings, c, cutoff, available);
    var after := ValidQuotes(quotes, sightings + [s], c, cutoff, available);
    forall q | q in quotes
      ensures InWindow(c, cutoff, available, q) && Overturns(sightings, s, c, q) <==> (q in before <==> q !in after)
    {
      ValidityFlipsExactly(sightings, s, c, cutoff, available, q);
      ValidQuotesExact(quotes, sightings, c, cutoff, available);
      ValidQuotesExact(quotes, sightings + [s], c, cutoff, available);
    }
    if exists q | q in quotes :: InWindow(c, cutoff, available, q) && Overturns(sightings, s, c, q) {
      var q :| q in quotes && InWindow(c, cutoff, available, q) && Overturns(sightings, s, c, q);
      SortPermutes(before, CapturedFirst);
      SortPermutes(after, CapturedFirst);
      assert q in multiset(before) <==> q !in multiset(after);
    } else {
      forall q | q in quotes
        ensures ValidQuote(sightings + [s], c, cutoff, available, q) <==> ValidQuote(sightings, c, cutoff, available, q)
      {
        ValidityFlipsExactly(sightings, s, c, cutoff, available, q);
      }
      SameValidQuotes(quotes, sightings, sightings + [s], c, cutoff, available);
    }
  }

  // ----- the stored close -----

  // A finalization names the greatest valid quote before its cutoff, as its world knew them.
  lemma FinalizeTakesGreatest(w: World, pick: nat, at: int)
    requires LifecycleSound(w) && KeyedQuotes(w.quotes)
    requires pick !in w.finalizations && Finalize(w, pick, at).1.Ok?
    ensures var u := Finalize(w, pick, at).0;
            var f := u.finalizations[pick];
            var valid := ValidQuotes(w.quotes, w.sightings, w.contexts[pick], f.cutoffAt, f.cutoffAt);
            && Finalize(w, pick, at).1 == Ok(f)
            && f.cutoffAt <= f.finalizedAt == at
            && f.candidate == f.closing && (f.outcome == Captured <==> f.closing.Some?)
            && (f.closing.None? <==> valid == [])
            && (f.closing.Some? ==> exists q | q in valid ::
                 q.id == f.closing.value && forall x | x in valid && x != q :: ObservedLast(q, x))
  {
    assert PickSound(w, pick);
    var known := LatestSighting(w.sightings, w.contexts[pick].fixture, at).value;
    QueriesExact(w.quotes, w.sightings, w.contexts[pick], known.kickoffAt, known.kickoffAt);
  }

  // A closing quote is a stored quote of the window before its cutoff.
  ghost predicate Closes(w: World, pick: nat, f: Finalization, q: Quote)
    requires pick in w.contexts
  {
    q in w.quotes && f.closing == Some(q.id) && InWindow(w.contexts[pick], f.cutoffAt, f.cutoffAt, q)
  }

  ghost predicate CloseSound(w: World, pick: nat) {
    pick in w.finalizations ==>
      var f := w.finalizations[pick];
      && pick in w.contexts
      && f.cutoffAt <= f.finalizedAt
      && f.candidate == f.closing && (f.outcome == Captured <==> f.closing.Some?)
      && (f.closing.Some? ==> exists q :: Closes(w, pick, f, q))
  }

  ghost predicate ClosesSound(w: World) {
    && LifecycleSound(w) && ClaimsSpaced(w) && KeyedQuotes(w.quotes)
    && (forall pick :: CloseSound(w, pick))
    && (forall pick | pick in w.contexts :: QuoteById(w.quotes, w.contexts[pick].entry).Some?)
  }

  lemma {:induction false} QuoteByIdExact(quotes: seq<Quote>, id: nat)
    ensures var q := QuoteById(quotes, id);
            && (q.None? <==> forall x | x in quotes :: x.id != id)
            && (q.Some? ==> q.value in quotes && q.value.id == id)
  {
    if quotes != [] {
      QuoteByIdExact(quotes[..|quotes| - 1], id);
      assert quotes == quotes[..|quotes| - 1] + [quotes[|quotes| - 1]];
    }
  }

  lemma QuoteByIdAppend(quotes: seq<Quote>, q: Quote, id: nat)
    requires QuoteById(quotes, q.id).None?
    ensures QuoteById(quotes, id).Some? ==> QuoteById(quotes + [q], id) == QuoteById(quotes, id)
    ensures KeyedQuotes(quotes) ==> KeyedQuotes(quotes + [q])
  {
    assert (quotes + [q])[..|quotes|] == quotes;
    QuoteByIdExact(quotes, q.id);
    forall i | 0 <= i < |quotes| ensures quotes[i].id != q.id {
      assert quotes[i] in quotes;
    }
  }

  lemma CloseKept(w: World, u: World, pick: nat)
    requires CloseSound(w, pick) && forall q | q in w.quotes :: q in u.quotes
    requires pick in u.finalizations ==> pick in w.finalizations && u.finalizations[pick] == w.finalizations[pick]
    requires pick in w.contexts ==> pick in u.contexts && u.contexts[pick] == w.contexts[pick]
    ensures CloseSound(u, pick)
  {
    if pick in u.finalizations && u.finalizations[pick].closing.Some? {
      var q :| Closes(w, pick, w.finalizations[pick], q);
      assert Closes(u, pick, u.finalizations[pick], q);
    }
  }

  lemma AppendKeepsCloses(w: World, quote: Quote)
    requires ClosesSound(w)
    ensures ClosesSound(Next(w, AppendQuote(quote)))
  {
    var u := Next(w, AppendQuote(quote));
    NextSound(w, AppendQuote(quote));
    if u != w {
      QuoteByIdAppend(w.quotes, quote, quote.id);
      forall pick ensures CloseSound(u, pick) {
        CloseKept(w, u, pick);
      }
      forall pick | pick in u.contexts ensures QuoteById(u.quotes, u.contexts[pick].entry).Some? {
        QuoteByIdAppend(w.quotes, quote, u.contexts[pick].entry);
      }
    }
  }

  lemma FinalizeKeepsCloses(w: World, pick: nat, at: int)
    requires ClosesSound(w)
    ensures forall p :: CloseSound(Finalize(w, pick, at).0, p)
  {
    var u := Finalize(w, pick, at).0;
    if u != w {
      FinalizeTakesGreatest(w, pick, at);
      var f := u.finalizations[pick];
      ValidQuotesExact(w.quotes, w.sightings, w.contexts[pick], f.cutoffAt, f.cutoffAt);
      forall p ensures CloseSound(u, p) {
        if p == pick && f.closing.Some? {
          var q :| q in ValidQuotes(w.quotes, w.sightings, w.contexts[pick], f.cutoffAt, f.cutoffAt) && q.id == f.closing.value;
          assert Closes(u, p, f, q);
        } else if p != pick {
          CloseKept(w, u, p);
        }
      }
    }
  }

  lemma NextCloses(w: World, s: Step)
    requires ClosesSound(w)
    ensures ClosesSound(Next(w, s))
  {
    NextSound(w, s);
    if s.AppendQuote? {
      AppendKeepsCloses(w, s.quote);
    } else if s.FinalizePick? {
      FinalizeKeepsCloses(w, s.pick, s.at);
    } else {
      OthersKeepCloses(w, s);
      OthersKeepEntries(w, s);
    }
  }

  lemma OthersKeepEntries(w: World, s: Step)
    requires ClosesSound(w) && !s.AppendQuote? && !s.FinalizePick?
    ensures Next(w, s).quotes == w.quotes
    ensures forall pick | pick in Next(w, s).contexts :: QuoteById(w.quotes, Next(w, s).contexts[pick].entry).Some?
  {
  }

  lemma OthersKeepCloses(w: World, s: Step)
    requires ClosesSound(w) && !s.AppendQuote? && !s.FinalizePick?
    ensures forall pick :: CloseSound(Next(w, s), pick)
  {
    var u := Next(w, s);
    NextIsLater(w, s);
    assert u.finalizations == w.finalizations;
    forall pick ensures CloseSound(u, pick) {
      CloseKept(w, u, pick);
    }
  }

  lemma {:induction false} RunCloses(w: World, steps: seq<Step>)
    requires ClosesSound(w)
    ensures ClosesSound(Run(w, steps))
    decreases |steps|
  {
    if steps != [] {
      NextCloses(w, steps[0]);
      RunCloses(Next(w, steps[0]), steps[1..]);
    }
  }

  // ----- when the close leaves its history -----

  ghost predicate CloseInHistory(w: World, pick: nat)
    requires pick in w.finalizations && pick in w.contexts
  {
    var f := w.finalizations[pick];
    exists q | q in History(w.quotes, w.sightings, w.contexts[pick], f.cutoffAt, f.cutoffAt) :: Some(q.id) == f.closing
  }

  ghost predicate HasClose(w: World, pick: nat) {
    pick in w.finalizations && pick in w.contexts && w.finalizations[pick].closing.Some?
  }

  // A step makes an observation visible that overturns the judgement of the closing quote.
  ghost predicate OverturnsClose(w: World, s: Step, pick: nat) {
    HasClose(w, pick) && s.Observe? && Next(w, s) != w
    && exists q :: Closes(w, pick, w.finalizations[pick], q) && Overturns(w.sightings, s.sighting, w.contexts[pick], q)
  }

  // How often a run overturns the judgement of the closing quote.
  ghost function Overturned(w: World, steps: seq<Step>, pick: nat): nat
    decreases |steps|
  {
    if steps == [] then 0
    else (if OverturnsClose(w, steps[0], pick) then 1 else 0) + Overturned(Next(w, steps[0]), steps[1..], pick)
  }

  // The close stands in the history exactly when its quote still counts as valid.
  lemma CloseInHistoryIffValid(w: World, pick: nat, q: Quote)
    requires ClosesSound(w) && HasClose(w, pick) && Closes(w, pick, w.finalizations[pick], q)
    ensures var f := w.finalizations[pick];
            CloseInHistory(w, pick) <==> ValidQuote(w.sightings, w.contexts[pick], f.cutoffAt, f.cutoffAt, q)
  {
    var f := w.finalizations[pick];
    var c := w.contexts[pick];
    QueriesExact(w.quotes, w.sightings, c, f.cutoffAt, f.cutoffAt);
    var history := History(w.quotes, w.sightings, c, f.cutoffAt, f.cutoffAt);
    var valid := ValidQuotes(w.quotes, w.sightings, c, f.cutoffAt, f.cutoffAt);
    forall x ensures x in history <==> x in valid {
      assert x in multiset(history) <==> x in multiset(valid);
    }
    forall x | x in history && Some(x.id) == f.closing ensures x == q {
      SameQuoteId(w.quotes, x, q);
    }
  }

  lemma FinalizedInHistory(w: World, pick: nat, at: int)
    requires ClosesSound(w) && !HasClose(w, pick)
    ensures var u := Finalize(w, pick, at).0;
            HasClose(u, pick) ==> CloseInHistory(u, pick)
  {
    var u := Finalize(w, pick, at).0;
    assert CloseSound(w, pick);
    if HasClose(u, pick) {
      FinalizeTakesGreatest(w, pick, at);
      NextCloses(w, FinalizePick(pick, at));
      var f := u.finalizations[pick];
      ValidQuotesExact(w.quotes, w.sightings, w.contexts[pick], f.cutoffAt, f.cutoffAt);
      var q :| q in ValidQuotes(w.quotes, w.sightings, w.contexts[pick], f.cutoffAt, f.cutoffAt) && q.id == f.closing.value;
      assert Closes(u, pick, f, q);
      CloseInHistoryIffValid(u, pick, q);
    }
  }

  // Every overturning observation takes the close out of the history or back into it; no other
  // step moves it.
  lemma CloseStep(w: World, s: Step, pick: nat)
    requires ClosesSound(w) && HasClose(w, pick)
    ensures HasClose(Next(w, s), pick)
    ensures CloseInHistory(Next(w, s), pick) <==> (CloseInHistory(w, pick) <==> !OverturnsClose(w, s, pick))
  {
    var u, f, c := Next(w, s), w.finalizations[pick], w.contexts[pick];
    NextIsLater(w, s);
    NextCloses(w, s);
    assert CloseSound(w, pick);
    var q :| Closes(w, pick, f, q);
    assert Closes(u, pick, f, q);
    CloseInHistoryIffValid(w, pick, q);
    CloseInHistoryIffValid(u, pick, q);
    if s.Observe? && u != w {
      ValidityFlipsExactly(w.sightings, s.sighting, c, f.cutoffAt, f.cutoffAt, q);
      forall x | Closes(w, pick, f, x) ensures x == q {
        SameQuoteId(w.quotes, x, q);
      }
    }
  }

  ghost predicate Even(n: nat) {
    n % 2 == 0
  }

  lemma EvenStep(n: nat)
    ensures Even(n + 1) <==> !Even(n)
  {
  }

  lemma {:induction false} OverturnedSince(w: World, steps: seq<Step>, pick: nat)
    requires ClosesSound(w) && HasClose(w, pick)
    ensures HasClose(Run(w, steps), pick)
    ensures CloseInHistory(Run(w, steps), pick) <==> (CloseInHistory(w, pick) <==> Even(Overturned(w, steps, pick)))
    decreases |steps|
  {
    if steps != [] {
      CloseStep(w, steps[0], pick);
      NextCloses(w, steps[0]);
      OverturnedSince(Next(w, steps[0]), steps[1..], pick);
      EvenStep(Overturned(Next(w, steps[0]), steps[1..], pick));
    }
  }

  lemma {:induction false} CloseEntersHistory(w: World, steps: seq<Step>, pick: nat)
    requires ClosesSound(w) && !HasClose(w, pick)
    ensures HasClose(Run(w, steps), pick) ==>
              (CloseInHistory(Run(w, steps), pick) <==> Even(Overturned(w, steps, pick)))
    decreases |steps|
  {
    if steps != [] {
      var u := Next(w, steps[0]);
      NextCloses(w, steps[0]);
      if HasClose(u, pick) {
        assert CloseSound(w, pick);
        assert steps[0].FinalizePick? && steps[0].pick == pick;
        FinalizedInHistory(w, pick, steps[0].at);
        OverturnedSince(u, steps[1..], pick);
      } else {
        CloseEntersHistory(u, steps[1..], pick);
      }
    }
  }

  // In every reachable world the stored close is a member of the history of its cutoff exactly
  // when the judgement of its quote was overturned an even number of times since it was stored.
  lemma CloseInHistoryExactly(steps: seq<Step>, pick: nat)
    requires pick in Run(EMPTY, steps).finalizations && Run(EMPTY, steps).finalizations[pick].closing.Some?
    ensures HasClose(Run(EMPTY, steps), pick)
    ensures CloseInHistory(Run(EMPTY, steps), pick) <==> Even(Overturned(EMPTY, steps, pick))
  {
    RunCloses(EMPTY, steps);
    assert CloseSound(Run(EMPTY, steps), pick);
    CloseEntersHistory(EMPTY, steps, pick);
  }

  // No finalization is stamped ahead of the database clock, and every observation is visible
  // from the moment of its stamp.
  ghost predicate Prompt(w: World, s: Step) {
    (s.FinalizePick? ==> s.at <= w.now) && (s.Observe? ==> s.sighting.persistedAt >= w.now)
  }

  ghost predicate AllPrompt(w: World, steps: seq<Step>)
    decreases |steps|
  {
    steps != [] ==> Prompt(w, steps[0]) && AllPrompt(Next(w, steps[0]), steps[1..])
  }

  ghost predicate FinalizedByNow(w: World) {
    forall pick | pick in w.finalizations :: w.finalizations[pick].finalizedAt <= w.now
  }

  lemma PromptStep(w: World, s: Step, pick: nat)
    requires ClosesSound(w) && FinalizedByNow(w) && Prompt(w, s)
    ensures FinalizedByNow(Next(w, s)) && !OverturnsClose(w, s, pick)
  {
    assert CloseSound(w, pick);
  }

  lemma {:induction false} PromptNeverOverturns(w: World, steps: seq<Step>, pick: nat)
    requires ClosesSound(w) && FinalizedByNow(w) && AllPrompt(w, steps)
    ensures Overturned(w, steps, pick) == 0
    decreases |steps|
  {
    if steps != [] {
      NextCloses(w, steps[0]);
      PromptStep(w, steps[0], pick);
      PromptNeverOverturns(Next(w, steps[0]), steps[1..], pick);
    }
  }

  // In particular it stays there while observations are visible as soon as they are stamped.
  lemma CloseStaysInHistory(steps: seq<Step>, pick: nat)
    requires AllPrompt(EMPTY, steps)
    ensures var w := Run(EMPTY, steps);
            pick in w.finalizations && w.finalizations[pick].closing.Some? ==>
              pick in w.contexts && CloseInHistory(w, pick)
  {
    PromptNeverOverturns(EMPTY, steps, pick);
    if pick in Run(EMPTY, steps).finalizations && Run(EMPTY, steps).finalizations[pick].closing.Some? {
      CloseInHistoryExactly(steps, pick);
    }
  }

  lemma {:induction false} RunThrough(worlds: seq<World>, steps: seq<Step>)
    requires |worlds| == |steps| + 1 && forall i | 0 <= i < |steps| :: worlds[i + 1] == Next(worlds[i], steps[i])
    ensures Run(worlds[0], steps) == worlds[|steps|]
    decreases |steps|
  {
    if steps != [] {
      RunThrough(worlds[1..], steps[1..]);
    }
  }

  const FED: Quote := QuoteHistory.Quote(0, 0, "feed", 2.0, 5, 5)
  const PINNED: Context := Context(0, 0, "feed", {"NS"}, 0, 60)
  const MINUTE: Policy := PolicyRow(60, 60, 60)
  const SCHEDULED: Sighting := Sighting(0, 0, 0, 0, 10, "NS")
  const POSTPONED: Sighting := Sighting(1, 0, 2, 3, 10, "PST")

  lemma OnlyFed(sightings: seq<Sighting>)
    ensures ValidQuotes([FED], sightings, PINNED, 10, 10) == if ValidQuote(sightings, PINNED, 10, 10, FED) then [FED] else []
    ensures Latest([FED], sightings, PINNED, 10, 10) == if ValidQuote(sightings, PINNED, 10, 10, FED) then Some(FED) else None
    ensures History([FED], sightings, PINNED, 10, 10) == if ValidQuote(sightings, PINNED, 10, 10, FED) then [FED] else []
  {
    assert [FED] == [] + [FED];
    assert ValidQuotes([], sightings, PINNED, 10, 10) == [];
    SortOne(FED, ObservedLast);
    SortOne(FED, CapturedFirst);
  }

  lemma SortOne<T>(x: T, before: (T, T) -> bool)
    ensures Sort([], before) == [] && Sort([x], before) == [x]
  {
    assert [x][1..] == [];
  }

  lemma KnownAt(at: int)
    requires at >= 5
    ensures LatestSighting([SCHEDULED], 0, at) == Some(SCHEDULED) && LatestSighting([SCHEDULED, POSTPONED], 0, at) == Some(POSTPONED)
  {
    assert [SCHEDULED] == [] + [SCHEDULED] && [SCHEDULED, POSTPONED] == [SCHEDULED] + [POSTPONED];
    assert LatestSighting([], 0, at) == None;
  }

  // A quote of time 5 is the close of a fixture that kicks off at 10; an observation stamped at 3
  // then becomes visible and says the fixture was postponed: the close is in no history any more.
  lemma LateSightingLosesClose()
    ensures var w := Run(EMPTY, [AppendQuote(FED), RegisterPick(0, PINNED), Observe(SCHEDULED), StartPick(0, MINUTE, 0),
                                 Tick(20), FinalizePick(0, 20), Observe(POSTPONED)]);
            HasClose(w, 0) && !CloseInHistory(w, 0)
  {
    var steps := [AppendQuote(FED), RegisterPick(0, PINNED), Observe(SCHEDULED), StartPick(0, MINUTE, 0), Tick(20),
                  FinalizePick(0, 20), Observe(POSTPONED)];
    var a := Next(EMPTY, steps[0]);
    var b := Next(a, steps[1]);
    var c := Next(b, steps[2]);
    var d := Next(c, steps[3]);
    var e := Next(d, steps[4]);
    RunThrough([EMPTY, a, b, c, d, e, Next(e, steps[5]), Next(Next(e, steps[5]), steps[6])], steps);
    assert a.quotes == [FED] && QuoteById([FED], 0) == Some(FED);
    assert e.quotes == [FED] && e.sightings == [SCHEDULED] && e.contexts == map[0 := PINNED] && e.now == 20;
    PostponedAfterClose(e);
  }

  lemma PostponedAfterClose(w: World)
    requires w.quotes == [FED] && w.sightings == [SCHEDULED] && w.contexts == map[0 := PINNED] && w.now == 20
    requires 0 in w.states && w.states[0].state == Monitored && w.finalizations == map[]
    ensures var u := Next(Next(w, FinalizePick(0, 20)), Observe(POSTPONED));
            HasClose(u, 0) && !CloseInHistory(u, 0)
  {
    OnlyFed([SCHEDULED]);
    OnlyFed([SCHEDULED, POSTPONED]);
    KnownAt(5);
    KnownAt(20);
    assert Next(w, FinalizePick(0, 20)).finalizations[0].cutoffAt == 10;
    assert Next(Next(w, FinalizePick(0, 20)), Observe(POSTPONED)).sightings == [SCHEDULED, POSTPONED];
  }

  // ----- a closed pick always reads the same -----

  // A step changes which quotes count for a closed pick.
  ghost predicate Disturbs(w: World, s: Step, pick: nat)
    requires pick in w.finalizations && pick in w.contexts
  {
    var cutoff, c := w.finalizations[pick].cutoffAt, w.contexts[pick];
    && Next(w, s) != w
    && match s
       case AppendQuote(quote) => ValidQuote(w.sightings, c, cutoff, cutoff, quote)
       case Observe(sighting) => exists q | q in w.quotes :: InWindow(c, cutoff, cutoff, q) && Overturns(w.sightings, sighting, c, q)
       case _ => false
  }

  lemma HistoryChangesExactly(w: World, s: Step, pick: nat)
    requires ClosesSound(w) && pick in w.finalizations && pick in w.contexts
    ensures var cutoff, c, u := w.finalizations[pick].cutoffAt, w.contexts[pick], Next(w, s);
            History(u.quotes, u.sightings, c, cutoff, cutoff) != History(w.quotes, w.sightings, c, cutoff, cutoff)
            <==> Disturbs(w, s, pick)
  {
    var cutoff, c, u := w.finalizations[pick].cutoffAt, w.contexts[pick], Next(w, s);
    if u != w {
      if s.AppendQuote? {
        QuoteByIdAppend(w.quotes, s.quote, s.quote.id);
        LateQuoteExactly(w.quotes, s.quote, w.sightings, c, cutoff, cutoff);
      } else if s.Observe? {
        LateSightingExactly(w.quotes, w.sightings, s.sighting, c, cutoff, cutoff);
      }
    }
  }

  lemma ClosingQuoteHeld(w: World, pick: nat)
    requires ClosesSound(w) && pick in w.finalizations
    ensures w.finalizations[pick].closing.Some? ==> QuoteById(w.quotes, w.finalizations[pick].closing.value).Some?
  {
    assert CloseSound(w, pick);
    if w.finalizations[pick].closing.Some? {
      QuoteByIdExact(w.quotes, w.finalizations[pick].closing.value);
    }
  }

  // What a closed pick reads as: its history, and otherwise what the close and the registration pin.
  function ClosedView(w: World, pick: nat, f: Finalization, entry: Quote, closing: Option<Quote>, history: seq<Quote>): Lifecycle
    requires pick in w.contexts
  {
    Lifecycle(ClosedForOdds, First(history), entry, closing, closing.Some? && FreshAt(closing.value, f.cutoffAt, MaxAge(w, pick)),
              closing, Some(f.outcome), history)
  }

  function CloseOf(w: World, f: Finalization): Option<Quote> {
    if f.closing.None? then None else QuoteById(w.quotes, f.closing.value)
  }

  lemma ReadsClosedView(w: World, pick: nat, t: int)
    requires ClosesSound(w) && pick in w.finalizations && pick in w.contexts
    ensures var f, c := w.finalizations[pick], w.contexts[pick];
            && QuoteById(w.quotes, c.entry).Some? && CloseOf(w, f).Some? == f.closing.Some?
            && ReadLifecycle(w, pick, t)
               == Ok(ClosedView(w, pick, f, QuoteById(w.quotes, c.entry).value, CloseOf(w, f),
                                History(w.quotes, w.sightings, c, f.cutoffAt, f.cutoffAt)))
  {
    assert PickSound(w, pick) && CloseSound(w, pick);
    ClosingQuoteHeld(w, pick);
  }

  lemma PinnedStay(w: World, s: Step, pick: nat)
    requires ClosesSound(w) && pick in w.finalizations && pick in w.contexts
    ensures var u, f, c := Next(w, s), w.finalizations[pick], w.contexts[pick];
            && pick in u.finalizations && pick in u.contexts && u.finalizations[pick] == f && u.contexts[pick] == c
            && QuoteById(u.quotes, c.entry) == QuoteById(w.quotes, c.entry) && CloseOf(u, f) == CloseOf(w, f)
            && MaxAge(u, pick) == MaxAge(w, pick)
  {
    NextIsLater(w, s);
    assert PickSound(w, pick);
    ReadsClosedView(w, pick, 0);
    if s.AppendQuote? && Next(w, s) != w {
      QuoteByIdAppend(w.quotes, s.quote, w.contexts[pick].entry);
      if w.finalizations[pick].closing.Some? {
        QuoteByIdAppend(w.quotes, s.quote, w.finalizations[pick].closing.value);
      }
    } else {
      assert Next(w, s).quotes == w.quotes;
    }
  }

  // The lifecycle of a closed pick, whenever it is read, changes in exactly the disturbing steps.
  lemma ClosedViewStepExactly(w: World, s: Step, pick: nat, t: int, t': int)
    requires ClosesSound(w) && pick in w.finalizations && pick in w.contexts
    ensures ReadLifecycle(Next(w, s), pick, t') != ReadLifecycle(w, pick, t) <==> Disturbs(w, s, pick)
  {
    NextCloses(w, s);
    PinnedStay(w, s, pick);
    ReadsClosedView(w, pick, t);
    ReadsClosedView(Next(w, s), pick, t');
    HistoryChangesExactly(w, s, pick);
  }

  ghost predicate Undisturbed(w: World, steps: seq<Step>, pick: nat)
    decreases |steps|
  {
    steps != [] ==>
      && (pick in w.finalizations && pick in w.contexts ==> !Disturbs(w, steps[0], pick))
      && Undisturbed(Next(w, steps[0]), steps[1..], pick)
  }

  // The lifecycle reads as the view at every moment of a run, whenever it is read.
  ghost predicate ReadsAs(w: World, steps: seq<Step>, pick: nat, view: Result<Lifecycle, MonitoringError>)
    decreases |steps|
  {
    && (forall t :: ReadLifecycle(w, pick, t) == view)
    && (steps != [] ==> ReadsAs(Next(w, steps[0]), steps[1..], pick, view))
  }

  // The lifecycle of a closed pick reads the same throughout a run exactly when no step disturbs it.
  lemma {:induction false} ClosedViewFrozenExactly(w: World, steps: seq<Step>, pick: nat, t: int)
    requires ClosesSound(w) && pick in w.finalizations
    ensures ReadsAs(w, steps, pick, ReadLifecycle(w, pick, t)) <==> Undisturbed(w, steps, pick)
    decreases |steps|
  {
    assert CloseSound(w, pick);
    forall t' ensures ReadLifecycle(w, pick, t') == ReadLifecycle(w, pick, t) {
      ReadsClosedView(w, pick, t);
      ReadsClosedView(w, pick, t');
    }
    if steps != [] {
      var u := Next(w, steps[0]);
      NextCloses(w, steps[0]);
      NextIsLater(w, steps[0]);
      ClosedViewStepExactly(w, steps[0], pick, t, t);
      ClosedViewFrozenExactly(u, steps[1..], pick, t);
    }
  }

  ghost predicate CapturedLate(cutoff: int, steps: seq<Step>) {
    && (forall s | s in steps && s.AppendQuote? :: s.quote.capturedAt >= cutoff)
    && (forall s | s in steps && s.Observe? :: s.sighting.persistedAt >= cutoff)
  }

  lemma {:induction false} LateIsUndisturbed(w: World, steps: seq<Step>, pick: nat)
    requires ClosesSound(w) && pick in w.finalizations && CapturedLate(w.finalizations[pick].cutoffAt, steps)
    ensures Undisturbed(w, steps, pick)
    decreases |steps|
  {
    if steps != [] {
      assert steps == [steps[0]] + steps[1..];
      NextCloses(w, steps[0]);
      NextIsLater(w, steps[0]);
      LateIsUndisturbed(Next(w, steps[0]), steps[1..], pick);
    }
  }

  // In particular after a run whose quotes are captured and whose observations are stamped at or
  // after the cutoff, whatever else happens: the fixture moves, refreshes are claimed.
  lemma {:induction false} ClosedViewFrozen(w: World, steps: seq<Step>, pick: nat, t: int, t': int)
    requires ClosesSound(w) && pick in w.finalizations
    requires CapturedLate(w.finalizations[pick].cutoffAt, steps)
    ensures ReadLifecycle(Run(w, steps), pick, t') == ReadLifecycle(w, pick, t)
  {
    LateIsUndisturbed(w, steps, pick);
    ClosedViewFrozenExactly(w, steps, pick, t);
    ReadsAsAtTheEnd(w, steps, pick, ReadLifecycle(w, pick, t), t');
  }

  lemma {:induction false} ReadsAsAtTheEnd(w: World, steps: seq<Step>, pick: nat, view: Result<Lifecycle, MonitoringError>, t: int)
    requires ReadsAs(w, steps, pick, view)
    ensures ReadLifecycle(Run(w, steps), pick, t) == view
    decreases |steps|
  {
    if steps != [] {
      ReadsAsAtTheEnd(Next(w, steps[0]), steps[1..], pick, view, t);
    }
  }

  lemma ClosedReadsOk(w: World, pick: nat, t: int)
    requires ClosesSound(w) && pick in w.finalizations
    ensures var view := ReadLifecycle(w, pick, t);
            && view.Ok? && view.value.state == ClosedForOdds
            && view.value.current == view.value.closing
            && (view.value.closing.None? <==> view.value.outcome == Some(NoValidQuote))
            && (view.value.closing.Some? ==> view.value.closing.value.id == w.finalizations[pick].closing.value)
            && First(view.value.history) == view.value.opening
  {
    assert PickSound(w, pick) && CloseSound(w, pick);
    ClosingQuoteHeld(w, pick);
    if w.finalizations[pick].closing.Some? {
      QuoteByIdExact(w.quotes, w.finalizations[pick].closing.value);
    }
  }
}

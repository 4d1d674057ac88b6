/** Whole runs of the P&L tracker: every structure agrees with the history, and the aggregates
    conserve what was recorded. */
module PnlRuns {
  import opened Machine
  import opened Sums
  import opened Pnl
  import opened PnlWindow
  import opened PnlAggregates
  import opened PnlTokens

  function RunAll(config: Config, events: seq<Event>): Books {
    if events == [] then Empty else After(config, RunAll(config, events[..|events| - 1]), events[|events| - 1])
  }

  function HistoryOf(config: Config, events: seq<Event>): seq<Entry> {
    if events == [] then []
    else HistoryAfter(config, HistoryOf(config, events[..|events| - 1]), events[|events| - 1])
  }

  /** A record's id is not retained, and a status change follows the documented lifecycle. */
  predicate Legal(s: Books, e: Event) {
    match e
    case Record(r) => r.fillId !in s.fills
    case Update(fillId, status) => fillId in s.fills ==> Documented(s.fills[fillId].status, status)
  }

  ghost predicate LegalRun(config: Config, events: seq<Event>) {
    |events| <= U64_MAX && forall i :: 0 <= i < |events| ==> Legal(RunAll(config, events[..i]), events[i])
  }

  ghost predicate TotalsAgree(s: Books, h: seq<Entry>) {
    s.totalFills == |h| && s.totalRealizedWei == WrapI64(SumOver(h, Realized()))
  }

  ghost predicate DaysAgree(s: Books, h: seq<Entry>) {
    forall day :: DayMatches(s.daily, h, day)
  }

  ghost predicate TokensAgree(config: Config, s: Books, h: seq<Entry>) {
    config.trackPerToken ==> forall k :: TokenMatches(s.tokens, h, k)
  }

  ghost predicate Agrees(config: Config, s: Books, h: seq<Entry>) {
    Window(config, s, h) && TotalsAgree(s, h) && DaysAgree(s, h) && TokensAgree(config, s, h)
  }

  lemma RecordAgrees(config: Config, s: Books, h: seq<Entry>, r: FillRecord)
    requires Agrees(config, s, h) && |h| < U64_MAX && r.fillId !in s.fills
    ensures Agrees(config, AfterRecordFill(config, s, r), h + [Entry(r, r.status)])
  {
    var s', h' := AfterRecordFill(config, s, r), h + [Entry(r, r.status)];
    RecordKeepsWindow(config, s, h, r);
    PruneFrame(Recorded(config, s, r), SatSub(Recorded(config, s, r).nextSeq, config.maxFillHistory));
    NextIs(s.totalFills);
    TotalAfterRecord(h, r, s.totalRealizedWei);
    forall day ensures DayMatches(s'.daily, h', day) {
      DayAfterRecordMatches(s.daily, h, r, day);
    }
    if config.trackPerToken {
      forall k ensures TokenMatches(s'.tokens, h', k) {
        TokensAfterRecordMatch(config, s.tokens, h, r, k);
      }
    }
  }

  lemma ChangeAgrees(config: Config, s: Books, h: seq<Entry>, at: nat, status: FillStatus)
    requires Agrees(config, s, h) && at < |h| && h[at].record.fillId in s.fills
    requires s.fills[h[at].record.fillId] == h[at].Current() && h[at].now.Pending? && !status.Pending?
    ensures var s', h' := AfterUpdateStatus(s, h[at].record.fillId, status), h[at := h[at].(now := status)];
            TotalsAgree(s', h') && DaysAgree(s', h') && TokensAgree(config, s', h')
  {
    var s', h' := AfterUpdateStatus(s, h[at].record.fillId, status), h[at := h[at].(now := status)];
    TotalFollowsChangeIff(h, at, status, s.totalRealizedWei);
    forall day ensures DayMatches(s'.daily, h', day) {
      DayAfterUpdateMatches(s.daily, h, at, status, day);
    }
    if config.trackPerToken {
      forall k ensures TokenMatches(s'.tokens, h', k) {
        TokensUnmovedByChange(s.tokens, h, at, status, k);
      }
    }
  }

  lemma UpdateAgrees(config: Config, s: Books, h: seq<Entry>, fillId: string, status: FillStatus)
    requires Agrees(config, s, h) && Legal(s, Update(fillId, status))
    ensures Agrees(config, AfterUpdateStatus(s, fillId, status), HistoryAfter(config, h, Update(fillId, status)))
  {
    UpdateKeepsWindow(config, s, h, fillId, status);
    UpdateFinds(config, s, h, fillId);
    if fillId in s.fills {
      var at := LastUnder(h, fillId).value;
      if h[at].now == status {
        assert h[at := h[at].(now := status)] == h;
      } else {
        ChangeAgrees(config, s, h, at, status);
      }
    }
  }

  lemma EmptyAgrees(config: Config)
    ensures Agrees(config, Empty, [])
  {
  }

  lemma LegalPrefix(config: Config, events: seq<Event>, n: nat)
    requires LegalRun(config, events) && n <= |events|
    ensures LegalRun(config, events[..n])
  {
    forall i | 0 <= i < n ensures Legal(RunAll(config, events[..n][..i]), events[..n][i]) {
      assert events[..n][..i] == events[..i];
    }
  }

  /** After any legal run, pruning included, every structure agrees with the history: the window
      of retained fills, the running totals, every day and every token. */
  lemma {:induction false} RunsAgree(config: Config, events: seq<Event>)
    requires LegalRun(config, events)
    ensures Agrees(config, RunAll(config, events), HistoryOf(config, events))
    ensures |HistoryOf(config, events)| <= |events|
  {
    if events == [] {
      EmptyAgrees(config);
    } else {
      var n := |events| - 1;
      LegalPrefix(config, events, n);
      RunsAgree(config, events[..n]);
      var s, h := RunAll(config, events[..n]), HistoryOf(config, events[..n]);
      assert Legal(s, events[n]);
      match events[n]
      case Record(r) => RecordAgrees(config, s, h, r);
      case Update(fillId, status) => UpdateAgrees(config, s, h, fillId, status);
    }
  }
}

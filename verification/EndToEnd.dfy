/**
 * What the server guarantees is what the client needs: a session's transcripts, applied to the composer
 * with live preview off and a platform that does not fail, put exactly the committed text at the cursor.
 */
module EndToEnd {
  import opened ComposerModel
  import opened EventLog
  import FakePlatformModel
  import SessionModel
  import opened SessionSafety
  import Vad

  // ---- Utterance identifiers ----

  function Digits(n: nat): string {
    if n < 10 then [('0' as int + n) as char] else Digits(n / 10) + [('0' as int + n % 10) as char]
  }

  /** `{n:04d}`. */
  function Padded(n: nat): string {
    var ds := Digits(n);
    if |ds| >= 4 then ds else seq(4 - |ds|, _ => '0') + ds
  }

  /** `u-{session_id}-{index:04d}`. */
  function UtteranceId(session: string, index: nat): string {
    "u-" + session + "-" + Padded(index)
  }

  function Value(ds: string): int {
    if ds == "" then 0 else 10 * Value(ds[..|ds| - 1]) + (ds[|ds| - 1] as int - '0' as int)
  }

  lemma {:induction false} ValueOfDigits(n: nat)
    ensures Value(Digits(n)) == n
  {
    if n < 10 {
      assert [('0' as int + n) as char][..0] == "";
    } else {
      var last := ('0' as int + n % 10) as char;
      ValueOfDigits(n / 10);
      assert (Digits(n / 10) + [last])[..|Digits(n / 10) + [last]| - 1] == Digits(n / 10);
    }
  }

  lemma {:induction false} ValuePastZeros(k: nat, ds: string)
    ensures Value(seq(k, _ => '0') + ds) == Value(ds)
  {
    var zeros := seq(k, _ => '0');
    if ds == "" {
      assert zeros + ds == zeros;
      if k > 0 {
        assert zeros[..k - 1] == seq(k - 1, _ => '0');
        ValuePastZeros(k - 1, "");
        assert seq(k - 1, _ => '0') + "" == seq(k - 1, _ => '0');
      }
    } else {
      assert (zeros + ds)[..|zeros + ds| - 1] == zeros + ds[..|ds| - 1];
      ValuePastZeros(k, ds[..|ds| - 1]);
    }
  }

  predicate Decimal(s: string) {
    forall i :: 0 <= i < |s| ==> '0' <= s[i] <= '9'
  }

  lemma {:induction false} DigitsAreDecimal(n: nat)
    ensures Decimal(Digits(n)) && Digits(n) != "" && (n > 0 ==> Digits(n)[0] != '0')
  {
    if n >= 10 {
      DigitsAreDecimal(n / 10);
    }
  }

  /** An index is written in decimal, with zeros in front only to make up four digits. */
  lemma {:induction false} PaddedIsDecimal(n: nat)
    ensures Decimal(Padded(n)) && Value(Padded(n)) == n && |Padded(n)| >= 4
    ensures |Padded(n)| > 4 ==> Padded(n)[0] != '0'
  {
    DigitsAreDecimal(n);
    ValueOfDigits(n);
    if |Digits(n)| < 4 {
      ValuePastZeros(4 - |Digits(n)|, Digits(n));
    }
  }

  /** Different utterances of a session have different identifiers, none of them empty. */
  lemma {:induction false} IdsAreDistinct(session: string, m: nat, n: nat)
    ensures UtteranceId(session, m) == UtteranceId(session, n) <==> m == n
    ensures UtteranceId(session, m) != ""
  {
    var head := "u-" + session + "-";
    assert UtteranceId(session, m) == head + Padded(m) && UtteranceId(session, n) == head + Padded(n);
    if UtteranceId(session, m) == UtteranceId(session, n) {
      assert Padded(m) == (head + Padded(m))[|head|..] == (head + Padded(n))[|head|..] == Padded(n);
      ValueOfDigits(m);
      ValueOfDigits(n);
      ValuePastZeros(if |Digits(m)| >= 4 then 0 else 4 - |Digits(m)|, Digits(m));
      ValuePastZeros(if |Digits(n)| >= 4 then 0 else 4 - |Digits(n)|, Digits(n));
    }
  }

  // ---- What the document should hold ----

  function Separator(stable: string): string {
    if stable == "" || EndsInGap(stable) then "" else UTTERANCE_SEPARATOR
  }

  function Delivered(e: TranscriptEvent): string {
    e.stable + if e.final then Separator(e.stable) else ""
  }

  /** Every utterance's last stable text, in order, each sealed one with its separator. */
  function Rendered(ts: seq<TranscriptEvent>): string
    decreases |ts|, 1
  {
    if ts == [] then "" else RenderedBefore(ts) + Delivered(ts[|ts| - 1])
  }

  /** The same of the utterances before the last event's. */
  function RenderedBefore(ts: seq<TranscriptEvent>): string
    requires ts != []
    decreases |ts|, 0
  {
    var init := ts[..|ts| - 1];
    if init != [] && init[|init| - 1].utterance == ts[|ts| - 1].utterance
    then RenderedBefore(init)
    else Rendered(init)
  }

  // ---- What arrives ----

  function ToClient(session: string, t: TranscriptEvent): Transcript {
    Transcript(UtteranceId(session, t.utterance), t.revision, t.stable, t.partial, t.final)
  }

  function AllToClient(session: string, ts: seq<TranscriptEvent>): seq<Transcript> {
    seq(|ts|, i requires 0 <= i < |ts| => ToClient(session, ts[i]))
  }

  /** `b` can come after `a` in order: later, in the same utterance only while that is open. */
  predicate After(a: TranscriptEvent, b: TranscriptEvent) {
    && a.revision < b.revision
    && a.utterance <= b.utterance
    && (a.final ==> a.utterance < b.utterance)
  }

  predicate InOrder(ts: seq<TranscriptEvent>) {
    match |ts|
    case 0 => true
    case 1 => ts[0].revision > 0
    case _ => InOrder(ts[..|ts| - 1]) && After(ts[|ts| - 2], ts[|ts| - 1])
  }

  const NO_FAULTS: FakePlatformModel.Faults := _ => false

  /** The desk after a new session's reset, over a document that ends a composition-free text. */
  predicate AtRest(d: Desk) {
    && d.c.utteranceId == "" && d.c.committed == "" && d.c.abandoned == "" && d.c.lastRevision == 0
    && !d.c.composing && !d.c.wrote && !d.c.livePreview
    && !d.p.composing && d.p.marked == ""
  }

  /** The desk has kept up with all of `ts`, in order and growing, over a document that held `base`. */
  predicate InSync(session: string, d: Desk, ts: seq<TranscriptEvent>, base: string) {
    && d.p.committed == base + Rendered(ts)
    && d.p.marked == "" && d.p.composing == d.c.composing
    && !d.c.livePreview && d.c.abandoned == ""
    && if ts == [] then AtRest(d)
       else
         var last := ts[|ts| - 1];
         && d.c.lastRevision == last.revision
         && d.c.composing == !last.final
         && if last.final then d.c.utteranceId == "" && d.c.committed == "" && !d.c.wrote
            else
              && d.c.utteranceId == UtteranceId(session, last.utterance)
              && d.c.committed == last.stable
              && d.c.wrote == (last.stable != "")
  }

  /** One event, on a desk that is open for it with `shown` committed for its utterance. */
  lemma {:induction false} WritingDelivers(d: Desk, e: Transcript, base: string, shown: string)
    requires d.p.committed == base + shown && d.c.committed == shown && shown <= e.stable
    requires d.c.wrote == (shown != "") && !d.c.livePreview
    requires d.p.marked == "" && d.p.composing == d.c.composing
    ensures var (d', ok) := Written(NO_FAULTS, d, e);
            && ok
            && d'.p.committed == base + e.stable + (if e.final then Separator(e.stable) else "")
            && d'.p.marked == "" && d'.p.composing == d'.c.composing == !e.final
            && d'.c.lastRevision == e.revision && d'.c.abandoned == d.c.abandoned && !d'.c.livePreview
            && d'.c.utteranceId == (if e.final then "" else d.c.utteranceId)
            && d'.c.committed == (if e.final then "" else e.stable)
            && d'.c.wrote == (!e.final && e.stable != "")
  {
    var d1 := Opened(NO_FAULTS, d).0;
    GrowingTypesTheDelta(NO_FAULTS, d1, e.stable, base);
    var d2 := Grown(NO_FAULTS, d1, e.stable).0;
    assert e.stable[|shown|..] == "" ==> e.stable == shown;
    assert d2.c.wrote == (e.stable != "");
    var d3 := Marked(NO_FAULTS, d2, e).0;
    assert base + e.stable + "" == base + e.stable;
  }

  lemma {:induction false} RenderedSnoc(ts: seq<TranscriptEvent>, t: TranscriptEvent)
    ensures Rendered(ts + [t]) == RenderedBefore(ts + [t]) + Delivered(t)
    ensures RenderedBefore(ts + [t]) ==
              if ts != [] && ts[|ts| - 1].utterance == t.utterance then RenderedBefore(ts) else Rendered(ts)
  {
    assert (ts + [t])[..|ts|] == ts;
  }

  /** Another event of the open utterance. */
  lemma {:induction false} MoreOfTheUtterance(session: string, d: Desk, ts: seq<TranscriptEvent>, t: TranscriptEvent, base: string)
    requires InSync(session, d, ts, base) && ts != []
    requires After(ts[|ts| - 1], t) && ts[|ts| - 1].utterance == t.utterance
    ensures var (d', outcome) := Applied(NO_FAULTS, d, ToClient(session, t));
            if Grows(ts[|ts| - 1], t) then outcome == Done && InSync(session, d', ts + [t], base)
            else outcome == PrefixChanged
  {
    hide Written, UtteranceId;
    var last := ts[|ts| - 1];
    IdsAreDistinct(session, t.utterance, t.utterance);
    RenderedSnoc(ts, t);
    var before := base + RenderedBefore(ts);
    assert base + (RenderedBefore(ts) + last.stable) == before + last.stable;
    assert last.stable + "" == last.stable;
    if last.stable <= t.stable {
      WritingDelivers(d, ToClient(session, t), before, last.stable);
      DeliveredAfter(base, RenderedBefore(ts), t);
    }
  }

  lemma {:induction false} DeliveredAfter(base: string, before: string, t: TranscriptEvent)
    ensures base + (before + Delivered(t)) == base + before + t.stable + (if t.final then Separator(t.stable) else "")
  {
  }

  /** The first event of another utterance. */
  lemma {:induction false} FirstOfAnUtterance(session: string, d: Desk, ts: seq<TranscriptEvent>, t: TranscriptEvent, base: string)
    requires InSync(session, d, ts, base) && t.revision > d.c.lastRevision
    requires ts != [] ==> ts[|ts| - 1].utterance != t.utterance
    ensures var (d', outcome) := Applied(NO_FAULTS, d, ToClient(session, t));
            outcome == Done && InSync(session, d', ts + [t], base)
  {
    hide Written, UtteranceId;
    var e := ToClient(session, t);
    IdsAreDistinct(session, t.utterance, t.utterance);
    if ts != [] {
      IdsAreDistinct(session, ts[|ts| - 1].utterance, t.utterance);
    }
    RenderedSnoc(ts, t);
    var before := base + Rendered(ts);
    var d1 := Entered(NO_FAULTS, d, e).0;
    assert before + "" == before;
    WritingDelivers(d1, e, before, "");
    DeliveredAfter(base, Rendered(ts), t);
  }

  /** The next event in order finds the desk in sync and leaves it so exactly when it grows its utterance. */
  lemma {:induction false} OneMoreEvent(session: string, d: Desk, ts: seq<TranscriptEvent>, t: TranscriptEvent, base: string)
    requires InSync(session, d, ts, base) && InOrder(ts + [t])
    ensures var (d', outcome) := Applied(NO_FAULTS, d, ToClient(session, t));
            if ts == [] || Grows(ts[|ts| - 1], t) then outcome == Done && InSync(session, d', ts + [t], base)
            else outcome == PrefixChanged
  {
    assert (ts + [t])[..|ts|] == ts;
    if ts != [] && ts[|ts| - 1].utterance == t.utterance {
      MoreOfTheUtterance(session, d, ts, t, base);
    } else {
      FirstOfAnUtterance(session, d, ts, t, base);
    }
  }

  // ---- Every event once, in order ----

  lemma {:induction false} ToClientSnoc(session: string, ts: seq<TranscriptEvent>)
    requires ts != []
    ensures AllToClient(session, ts)[..|ts| - 1] == AllToClient(session, ts[..|ts| - 1])
    ensures AllToClient(session, ts)[|ts| - 1] == ToClient(session, ts[|ts| - 1])
  {
  }

  /** A log in order is applied without a retraction exactly when it grows, and then the document is its text. */
  lemma {:induction false} InOrderDelivery(session: string, d: Desk, ts: seq<TranscriptEvent>, base: string)
    requires AtRest(d) && d.p.committed == base && InOrder(ts)
    ensures Growing(ts) ==> InSync(session, AppliedAll(NO_FAULTS, d, AllToClient(session, ts)), ts, base)
    ensures PrefixChanged !in Outcomes(NO_FAULTS, d, AllToClient(session, ts)) <==> Growing(ts)
  {
    if ts == [] {
      assert base + Rendered(ts) == base;
    } else {
      var init, t := ts[..|ts| - 1], ts[|ts| - 1];
      assert init + [t] == ts;
      OrderIsInherited(ts);
      ToClientSnoc(session, ts);
      InOrderDelivery(session, d, init, base);
      if Growing(init) {
        OneMoreEvent(session, AppliedAll(NO_FAULTS, d, AllToClient(session, init)), init, t, base);
      }
      var before := Outcomes(NO_FAULTS, d, AllToClient(session, init));
      assert Outcomes(NO_FAULTS, d, AllToClient(session, ts))
          == before + [Applied(NO_FAULTS, AppliedAll(NO_FAULTS, d, AllToClient(session, init)), ToClient(session, t)).1];
      GrowingSnoc(init, t);
    }
  }

  lemma {:induction false} OrderIsInherited(ts: seq<TranscriptEvent>)
    requires InOrder(ts) && ts != []
    ensures InOrder(ts[..|ts| - 1])
  {
  }

  lemma {:induction false} GrowingSnoc(ts: seq<TranscriptEvent>, t: TranscriptEvent)
    ensures Growing(ts + [t]) <==> Growing(ts) && (ts == [] || Grows(ts[|ts| - 1], t))
  {
    assert (ts + [t])[..|ts|] == ts;
  }

  /** The log of any run is in order. */
  lemma {:induction false} LogIsInOrder(ts: seq<TranscriptEvent>)
    requires Numbered(ts) && Chained(ts)
    ensures InOrder(ts)
  {
    if |ts| == 1 {
      NumberedAt(ts, 0);
    } else if |ts| > 1 {
      LogIsInOrder(ts[..|ts| - 1]);
      NumberedAt(ts, |ts| - 2);
      NumberedAt(ts, |ts| - 1);
    }
  }

  // ---- Duplicates, reordering and losses ----

  /** The deliveries that are news when they arrive: each later than everything before it. */
  function News(ds: seq<TranscriptEvent>): seq<TranscriptEvent> {
    if ds == [] then []
    else
      var before, e := News(ds[..|ds| - 1]), ds[|ds| - 1];
      if before == [] || before[|before| - 1].revision < e.revision then before + [e] else before
  }

  lemma {:induction false} NewsIsDelivered(ds: seq<TranscriptEvent>)
    ensures forall e :: e in News(ds) ==> e in ds
  {
    if ds != [] {
      NewsIsDelivered(ds[..|ds| - 1]);
    }
  }

  /** Two events of one growing log, the later number later. */
  lemma {:induction false} LogOrdersAnyTwo(ts: seq<TranscriptEvent>, a: TranscriptEvent, b: TranscriptEvent)
    requires Numbered(ts) && Chained(ts) && Growing(ts)
    requires a in ts && b in ts && a.revision < b.revision
    ensures After(a, b) && Grows(a, b)
  {
    var i :| 0 <= i < |ts| && ts[i] == a;
    var j :| 0 <= j < |ts| && ts[j] == b;
    NumberedAt(ts, i);
    NumberedAt(ts, j);
    FinalIsTerminal(ts, i, j);
    GrowsThroughout(ts, i, j);
  }

  lemma {:induction false} NewsIsInOrder(ts: seq<TranscriptEvent>, ds: seq<TranscriptEvent>)
    requires Numbered(ts) && Chained(ts) && Growing(ts)
    requires forall e :: e in ds ==> e in ts
    ensures InOrder(News(ds)) && Growing(News(ds))
  {
    if ds != [] {
      var before, e := News(ds[..|ds| - 1]), ds[|ds| - 1];
      NewsIsInOrder(ts, ds[..|ds| - 1]);
      NewsIsDelivered(ds[..|ds| - 1]);
      assert e in ds;
      var i :| 0 <= i < |ts| && ts[i] == e;
      NumberedAt(ts, i);
      if before != [] && before[|before| - 1].revision < e.revision {
        assert before[|before| - 1] in before;
        LogOrdersAnyTwo(ts, before[|before| - 1], e);
      }
      InOrderSnoc(before, e);
      GrowingSnoc(before, e);
    }
  }

  lemma {:induction false} InOrderSnoc(ts: seq<TranscriptEvent>, e: TranscriptEvent)
    ensures InOrder(ts) && (if ts == [] then e.revision > 0 else After(ts[|ts| - 1], e)) ==> InOrder(ts + [e])
  {
    assert (ts + [e])[..|ts|] == ts;
  }

  /** The last delivery acts on what the ones before it left, and adds its outcome. */
  lemma {:induction false} DeliverySnoc(session: string, d: Desk, ds: seq<TranscriptEvent>)
    requires ds != []
    ensures var n := |ds| - 1;
            var before := AppliedAll(NO_FAULTS, d, AllToClient(session, ds[..n]));
            var (d', outcome) := Applied(NO_FAULTS, before, ToClient(session, ds[n]));
            && AppliedAll(NO_FAULTS, d, AllToClient(session, ds)) == d'
            && Outcomes(NO_FAULTS, d, AllToClient(session, ds))
               == Outcomes(NO_FAULTS, d, AllToClient(session, ds[..n])) + [outcome]
  {
    ToClientSnoc(session, ds);
  }

  /**
   * Whatever reaches the client of a growing log, however often and in whatever order: nothing is ever
   * retracted, and the document is the text of the deliveries that were news.
   */
  lemma {:induction false} AnyDelivery(session: string, d: Desk, ts: seq<TranscriptEvent>, ds: seq<TranscriptEvent>, base: string)
    requires AtRest(d) && d.p.committed == base
    requires Numbered(ts) && Chained(ts) && Growing(ts)
    requires forall e :: e in ds ==> e in ts
    ensures InSync(session, AppliedAll(NO_FAULTS, d, AllToClient(session, ds)), News(ds), base)
    ensures forall o :: o in Outcomes(NO_FAULTS, d, AllToClient(session, ds)) ==> o == Done || o == Stale
  {
    if ds == [] {
      NothingDelivered(session, d, base);
    } else {
      AnyDelivery(session, d, ts, ds[..|ds| - 1], base);
      DeliverySnoc(session, d, ds);
      NewsFits(ts, ds);
      NextDelivery(session, AppliedAll(NO_FAULTS, d, AllToClient(session, ds[..|ds| - 1])), ds, base);
    }
  }

  lemma {:induction false} NothingDelivered(session: string, d: Desk, base: string)
    requires AtRest(d) && d.p.committed == base
    ensures AllToClient(session, []) == [] && InSync(session, d, News([]), base)
  {
    assert base + Rendered([]) == base;
  }

  lemma {:induction false} NextDelivery(session: string, d: Desk, ds: seq<TranscriptEvent>, base: string)
    requires ds != [] && InSync(session, d, News(ds[..|ds| - 1]), base)
    requires var before, e := News(ds[..|ds| - 1]), ds[|ds| - 1];
             before == [] || before[|before| - 1].revision < e.revision ==>
               InOrder(before + [e]) && (before == [] || Grows(before[|before| - 1], e))
    ensures var (d', outcome) := Applied(NO_FAULTS, d, ToClient(session, ds[|ds| - 1]));
            (outcome == Done || outcome == Stale) && InSync(session, d', News(ds), base)
  {
    OneMoreDelivery(session, d, News(ds[..|ds| - 1]), ds[|ds| - 1], base);
  }

  /** What a delivery adds to the news continues it. */
  lemma {:induction false} NewsFits(ts: seq<TranscriptEvent>, ds: seq<TranscriptEvent>)
    requires Numbered(ts) && Chained(ts) && Growing(ts) && ds != []
    requires forall e :: e in ds ==> e in ts
    ensures var before, e := News(ds[..|ds| - 1]), ds[|ds| - 1];
            before == [] || before[|before| - 1].revision < e.revision ==>
              InOrder(before + [e]) && (before == [] || Grows(before[|before| - 1], e))
  {
    NewsIsInOrder(ts, ds);
    GrowingSnoc(News(ds[..|ds| - 1]), ds[|ds| - 1]);
  }

  /** A delivery that is news is taken in; any other changes nothing but a counter. */
  lemma {:induction false} OneMoreDelivery(session: string, d: Desk, before: seq<TranscriptEvent>, e: TranscriptEvent, base: string)
    requires InSync(session, d, before, base)
    requires var news := before == [] || before[|before| - 1].revision < e.revision;
             && (news ==> InOrder(before + [e]) && (before == [] || Grows(before[|before| - 1], e)))
    ensures var (d', outcome) := Applied(NO_FAULTS, d, ToClient(session, e));
            var news := before == [] || before[|before| - 1].revision < e.revision;
            && outcome == (if news then Done else Stale)
            && InSync(session, d', if news then before + [e] else before, base)
  {
    if before == [] || before[|before| - 1].revision < e.revision {
      OneMoreEvent(session, d, before, e, base);
    }
  }

  lemma {:induction false} AllIsNews(ts: seq<TranscriptEvent>)
    requires Numbered(ts)
    ensures News(ts) == ts
  {
    if ts != [] {
      AllIsNews(ts[..|ts| - 1]);
      if |ts| > 1 {
        NumberedAt(ts, |ts| - 2);
      }
    }
  }

  // ---- The two ends together ----

  /**
   * Draft mode, any decoders, any interleaving of audio, flush and close with the decodes, any duplication,
   * reordering and loss on the way: no event is ever refused as a retraction, and the document holds what it
   * held before plus, for every utterance delivered, its latest stable text, separated once sealed.
   */
  lemma {:induction false} DraftEndToEnd(cfg: SessionModel.Settings, env: SessionModel.Environment,
                                         detector: Vad.Detector, crossCheck: bool,
                                         schedule: seq<SessionModel.Action>, session: string, d: Desk,
                                         ds: seq<TranscriptEvent>)
    requires cfg.draftMode && AtRest(d)
    requires forall e :: e in ds ==> e in RunLog(cfg, env, detector, crossCheck, schedule)
    ensures var d' := AppliedAll(NO_FAULTS, d, AllToClient(session, ds));
            d'.p.Document() == d.p.committed + Rendered(News(ds))
    ensures forall o :: o in Outcomes(NO_FAULTS, d, AllToClient(session, ds)) ==> o == Done || o == Stale
    ensures ds == RunLog(cfg, env, detector, crossCheck, schedule) ==> News(ds) == ds
  {
    var ts := RunLog(cfg, env, detector, crossCheck, schedule);
    EveryRunIsOrderly(cfg, env, detector, crossCheck, schedule);
    DraftRunsGrow(cfg, env, detector, crossCheck, schedule);
    AnyDelivery(session, d, ts, ds, d.p.committed);
    AllIsNews(ts);
  }

  /** The same with a single model, as long as every pass is faithful to what was committed before it. */
  lemma {:induction false} SingleModelEndToEnd(cfg: SessionModel.Settings, env: SessionModel.Environment,
                                               detector: Vad.Detector, crossCheck: bool,
                                               schedule: seq<SessionModel.Action>, session: string, d: Desk,
                                               ds: seq<TranscriptEvent>)
    requires !cfg.draftMode && AtRest(d)
    requires EveryPassFaithful(cfg, env, SessionModel.NewSession(cfg, detector, crossCheck), schedule)
    requires forall e :: e in ds ==> e in RunLog(cfg, env, detector, crossCheck, schedule)
    ensures var d' := AppliedAll(NO_FAULTS, d, AllToClient(session, ds));
            d'.p.Document() == d.p.committed + Rendered(News(ds))
    ensures forall o :: o in Outcomes(NO_FAULTS, d, AllToClient(session, ds)) ==> o == Done || o == Stale
    ensures ds == RunLog(cfg, env, detector, crossCheck, schedule) ==> News(ds) == ds
  {
    var ts := RunLog(cfg, env, detector, crossCheck, schedule);
    EveryRunIsOrderly(cfg, env, detector, crossCheck, schedule);
    SingleModelGrowsIff(cfg, env, detector, crossCheck, schedule);
    AnyDelivery(session, d, ts, ds, d.p.committed);
    AllIsNews(ts);
  }

  /** And that is exactly when: the client hits a retraction if and only if some pass was not faithful. */
  lemma {:induction false} SingleModelRetractsIff(cfg: SessionModel.Settings, env: SessionModel.Environment,
                                                  detector: Vad.Detector, crossCheck: bool,
                                                  schedule: seq<SessionModel.Action>, session: string, d: Desk)
    requires !cfg.draftMode && AtRest(d)
    ensures var ts := RunLog(cfg, env, detector, crossCheck, schedule);
            PrefixChanged in Outcomes(NO_FAULTS, d, AllToClient(session, ts)) <==>
            !EveryPassFaithful(cfg, env, SessionModel.NewSession(cfg, detector, crossCheck), schedule)
  {
    var ts := RunLog(cfg, env, detector, crossCheck, schedule);
    EveryRunIsOrderly(cfg, env, detector, crossCheck, schedule);
    SingleModelGrowsIff(cfg, env, detector, crossCheck, schedule);
    LogIsInOrder(ts);
    InOrderDelivery(session, d, ts, d.p.committed);
  }
}

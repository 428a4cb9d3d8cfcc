/**
 What one key sees of a run, and what it is sent: keys do not interfere, and the slot machine
 sends the first push of each busy period and the newest of each window that received any.
 */
module CoalescerKeys {
  import opened Types
  import opened Coalescer

  /** One key's own events: a push offered to it, and its window's callback taking the lock. */
  datatype KeyEvent = Offered(push: Push) | WindowEnd

  datatype Phase = Quiet | Open(held: Option<Push>)

  ghost predicate BeforeFlush(es: seq<Event>) {
    forall i :: 0 <= i < |es| ==> !es[i].Flush?
  }

  function Seen(es: seq<Event>, key: Key): seq<KeyEvent> {
    if es == [] then []
    else
      match SeenAs(es[0], key)
      case None => Seen(es[1..], key)
      case Some(ke) => [ke] + Seen(es[1..], key)
  }

  function PhaseOf(s: State, key: Key): Phase {
    if key in s.slots then Open(s.slots[key].held) else Quiet
  }

  /** The pushes committed under one key, in order. */
  function SentTo(commits: seq<Commit>, key: Key): seq<Push> {
    if commits == [] then []
    else if commits[0].key == key then [commits[0].push] + SentTo(commits[1..], key)
    else SentTo(commits[1..], key)
  }

  // ------------------------------------------------------------------ a coalescer with one slot

  function PhaseNext(p: Phase, e: KeyEvent): Phase {
    match (p, e)
    case (Quiet, Offered(_)) => Open(None)
    case (Quiet, WindowEnd) => Quiet
    case (Open(_), Offered(push)) => Open(Some(push))
    case (Open(None), WindowEnd) => Quiet
    case (Open(Some(_)), WindowEnd) => Open(None)
  }

  function PhaseOut(p: Phase, e: KeyEvent): seq<Push> {
    match (p, e)
    case (Quiet, Offered(push)) => [push]
    case (Open(Some(push)), WindowEnd) => [push]
    case _ => []
  }

  function PhaseFinal(p: Phase, t: seq<KeyEvent>): Phase
    decreases |t|
  {
    if t == [] then p else PhaseFinal(PhaseNext(p, t[0]), t[1..])
  }

  function PhaseSent(p: Phase, t: seq<KeyEvent>): seq<Push>
    decreases |t|
  {
    if t == [] then [] else PhaseOut(p, t[0]) + PhaseSent(PhaseNext(p, t[0]), t[1..])
  }

  lemma {:induction false} SentToJoined(a: seq<Commit>, b: seq<Commit>, key: Key)
    ensures SentTo(a + b, key) == SentTo(a, key) + SentTo(b, key)
  {
    if a == [] {
      assert a + b == b;
    } else {
      assert (a + b)[1..] == a[1..] + b;
      SentToJoined(a[1..], b, key);
    }
  }

  /** What one step is to one key. */
  function SeenAs(e: Event, key: Key): Option<KeyEvent> {
    match e
    case Offer(k, push) => if k == key then Some(Offered(push)) else None
    case Expire(_, k) => if k == key then Some(WindowEnd) else None
    case _ => None
  }

  lemma StepOnKey(s: State, e: Event, key: Key)
    requires !s.closed && !e.Flush?
    ensures !Next(s, e).closed
    ensures match SeenAs(e, key)
            case None =>
              PhaseOf(Next(s, e), key) == PhaseOf(s, key) && SentTo(Out(s, e), key) == []
            case Some(ke) =>
              && PhaseOf(Next(s, e), key) == PhaseNext(PhaseOf(s, key), ke)
              && SentTo(Out(s, e), key) == PhaseOut(PhaseOf(s, key), ke)
  {
    var out := Out(s, e);
    if out != [] {
      assert out[1..] == [];
    }
  }

  /** Projecting a run onto a key gives a run of the one-slot coalescer on that key's events. */
  lemma {:induction false} KeysDoNotInterfere(s: State, es: seq<Event>, key: Key)
    requires !s.closed && BeforeFlush(es)
    ensures !Final(s, es).closed
    ensures PhaseOf(Final(s, es), key) == PhaseFinal(PhaseOf(s, key), Seen(es, key))
    ensures SentTo(Commits(s, es), key) == PhaseSent(PhaseOf(s, key), Seen(es, key))
    decreases |es|
  {
    if es != [] {
      var e, s1, rest := es[0], Next(s, es[0]), es[1..];
      assert !e.Flush?;
      assert forall i :: 0 <= i < |rest| ==> rest[i] == es[i + 1];
      StepOnKey(s, e, key);
      KeysDoNotInterfere(s1, rest, key);
      SentToJoined(Out(s, e), Commits(s1, rest), key);
      match SeenAs(e, key)
      case None =>
        assert Seen(es, key) == Seen(rest, key);
      case Some(ke) =>
        assert Seen(es, key) == [ke] + Seen(rest, key);
        assert Seen(es, key)[1..] == Seen(rest, key);
    }
  }

  // ------------------------------------------------------------------ window by window

  /** What was offered between one window's end and the next; the last window is still running. */
  function Windows(t: seq<KeyEvent>): (ws: seq<seq<Push>>)
    ensures |ws| > 0
  {
    if t == [] then [[]]
    else
      var ws := Windows(t[1..]);
      match t[0]
      case Offered(push) => [[push] + ws[0]] + ws[1..]
      case WindowEnd => [[]] + ws
  }

  /** The newest push a window received, or nothing. */
  function Newest(window: seq<Push>): seq<Push> {
    if window == [] then [] else [window[|window| - 1]]
  }

  /**
   What should go out, read off whole windows. The first push of a busy period goes at once; of
   the rest of a window the newest goes when it ends, and that opens the next one; a window
   that received nothing ends the busy period. What the running window holds has not gone yet.
   */
  function Due(ws: seq<seq<Push>>, busy: bool): seq<Push>
    requires |ws| > 0
    decreases |ws|
  {
    var lead := if !busy && ws[0] != [] then [ws[0][0]] else [];
    var waiting := if busy || ws[0] == [] then ws[0] else ws[0][1..];
    if |ws| == 1 then lead
    else lead + Newest(waiting) + Due(ws[1..], waiting != [])
  }

  function DueFrom(p: Phase, ws: seq<seq<Push>>): seq<Push>
    requires |ws| > 0
  {
    match p
    case Quiet => Due(ws, false)
    case Open(None) => Due(ws, true)
    case Open(Some(held)) => Due([[held] + ws[0]] + ws[1..], true)
  }

  /** An event in front of what comes after it, window by window. */
  function InFront(e: KeyEvent, ws: seq<seq<Push>>): seq<seq<Push>>
    requires |ws| > 0
  {
    match e
    case Offered(push) => [[push] + ws[0]] + ws[1..]
    case WindowEnd => [[]] + ws
  }

  lemma OnlyTheNewestMatters(a: seq<Push>, b: seq<Push>, rest: seq<seq<Push>>)
    requires a != [] && b != [] && Newest(a) == Newest(b)
    ensures Due([a] + rest, true) == Due([b] + rest, true)
  {
    assert ([a] + rest)[1..] == rest && ([b] + rest)[1..] == rest;
  }

  lemma DueStep(p: Phase, e: KeyEvent, rest: seq<seq<Push>>)
    requires |rest| > 0
    ensures DueFrom(p, InFront(e, rest)) == PhaseOut(p, e) + DueFrom(PhaseNext(p, e), rest)
  {
    var ws := InFront(e, rest);
    if e.WindowEnd? {
      assert ws[1..] == rest;
      if p.Open? && p.held.Some? {
        var before := [[p.held.value] + ws[0]] + ws[1..];
        assert before[1..] == rest && before[0] == [p.held.value];
      }
    } else if p == Quiet {
      assert ws[1..] == rest[1..] && ws[0][1..] == rest[0];
    } else if p.held.Some? {
      assert ws[1..] == rest[1..];
      OnlyTheNewestMatters([p.held.value] + ws[0], ws[0], rest[1..]);
    }
  }

  lemma {:induction false} SentIsDueFrom(p: Phase, t: seq<KeyEvent>)
    ensures PhaseSent(p, t) == DueFrom(p, Windows(t))
    decreases |t|
  {
    if t != [] {
      SentIsDueFrom(PhaseNext(p, t[0]), t[1..]);
      DueStep(p, t[0], Windows(t[1..]));
      hide PhaseNext, PhaseOut, DueFrom;
      assert Windows(t) == InFront(t[0], Windows(t[1..]));
    }
  }

  /** In any run before a flush, each key is sent exactly what its windows call for. */
  lemma SendsWhatIsDue(window: Time, clock: Time, es: seq<Event>, key: Key)
    requires BeforeFlush(es)
    ensures SentTo(Commits(Init(window, clock), es), key) == Due(Windows(Seen(es, key)), false)
  {
    KeysDoNotInterfere(Init(window, clock), es, key);
    SentIsDueFrom(Quiet, Seen(es, key));
  }

  // ------------------------------------------------------------------ nothing newer is lost

  function Offers(t: seq<KeyEvent>): seq<Push> {
    if t == [] then []
    else if t[0].Offered? then [t[0].push] + Offers(t[1..])
    else Offers(t[1..])
  }

  /** `a` is what is left of `b` after striking some of it out: order kept, nothing repeated. */
  ghost predicate Within(a: seq<Push>, b: seq<Push>) {
    a == [] || (b != [] && ((a[0] == b[0] && Within(a[1..], b[1..])) || Within(a, b[1..])))
  }

  function HeldBy(p: Phase): seq<Push> {
    if p.Open? && p.held.Some? then [p.held.value] else []
  }

  lemma {:induction false} SentWithinOffers(p: Phase, t: seq<KeyEvent>)
    ensures Within(PhaseSent(p, t), HeldBy(p) + Offers(t))
    decreases |t|
  {
    if t != [] {
      var p1 := PhaseNext(p, t[0]);
      SentWithinOffers(p1, t[1..]);
      var rest, sent := Offers(t[1..]), PhaseSent(p1, t[1..]);
      var all := HeldBy(p) + Offers(t);
      match (p, t[0])
      case (Quiet, Offered(push)) =>
        assert HeldBy(p1) + rest == rest && all == [push] + rest;
        assert PhaseSent(p, t) == [push] + sent;
        assert all[1..] == rest && PhaseSent(p, t)[1..] == sent;
      case (Quiet, WindowEnd) =>
        assert HeldBy(p1) + rest == all;
        assert PhaseSent(p, t) == sent;
      case (Open(None), Offered(push)) =>
        assert HeldBy(p1) + rest == [push] + rest == all;
        assert PhaseSent(p, t) == sent;
      case (Open(Some(held)), Offered(push)) =>
        assert HeldBy(p1) + rest == [push] + rest == all[1..];
        assert PhaseSent(p, t) == sent;
      case (Open(None), WindowEnd) =>
        assert HeldBy(p1) + rest == all;
        assert PhaseSent(p, t) == sent;
      case (Open(Some(held)), WindowEnd) =>
        assert HeldBy(p1) + rest == rest && all == [held] + rest;
        assert PhaseSent(p, t) == [held] + sent;
        assert all[1..] == rest && PhaseSent(p, t)[1..] == sent;
    }
  }

  /** The last push taken in: the one held, or else the last one sent. */
  function Latest(p: Phase, sent: seq<Push>): seq<Push> {
    if p.Open? && p.held.Some? then [p.held.value] else Newest(sent)
  }

  lemma Regroup<T>(a: seq<T>, b: seq<T>, c: seq<T>)
    ensures (a + b) + c == a + (b + c)
  {
  }

  lemma LatestStep(p: Phase, e: KeyEvent, before: seq<Push>, taken: seq<Push>)
    requires Latest(p, before) == Newest(taken)
    ensures Latest(PhaseNext(p, e), before + PhaseOut(p, e))
         == Newest(taken + if e.Offered? then [e.push] else [])
  {
    assert before + [] == before && taken + [] == taken;
  }

  lemma {:induction false} LatestFrom(p: Phase, t: seq<KeyEvent>, before: seq<Push>, taken: seq<Push>)
    requires Latest(p, before) == Newest(taken)
    ensures Latest(PhaseFinal(p, t), before + PhaseSent(p, t)) == Newest(taken + Offers(t))
    decreases |t|
  {
    if t == [] {
      assert before + PhaseSent(p, t) == before && taken + Offers(t) == taken;
    } else {
      hide PhaseNext, PhaseOut, Latest, Newest;
      var p1, out := PhaseNext(p, t[0]), PhaseOut(p, t[0]);
      var more := if t[0].Offered? then [t[0].push] else [];
      assert Offers(t) == more + Offers(t[1..]);
      Regroup(before, out, PhaseSent(p1, t[1..]));
      Regroup(taken, more, Offers(t[1..]));
      LatestStep(p, t[0], before, taken);
      LatestFrom(p1, t[1..], before + out, taken + more);
    }
  }

  /**
   In any run before a flush, for every key: what was sent is, in order and each at most once,
   some of what was offered; the latest push offered is the one held or else the last one sent;
   and when the slot is gone, the latest push offered has been sent.
   */
  lemma NewestGoesLast(window: Time, clock: Time, es: seq<Event>, key: Key)
    requires BeforeFlush(es)
    ensures var s := Final(Init(window, clock), es);
      var sent := SentTo(Commits(Init(window, clock), es), key);
      var offers := Offers(Seen(es, key));
      && Within(sent, offers)
      && Latest(PhaseOf(s, key), sent) == Newest(offers)
      && (key !in s.slots ==> Newest(sent) == Newest(offers))
  {
    var t := Seen(es, key);
    KeysDoNotInterfere(Init(window, clock), es, key);
    SentWithinOffers(Quiet, t);
    assert HeldBy(Quiet) + Offers(t) == Offers(t);
    LatestFrom(Quiet, t, [], []);
    assert [] + PhaseSent(Quiet, t) == PhaseSent(Quiet, t);
    assert [] + Offers(t) == Offers(t);
  }

  // ------------------------------------------------------------------ the flush

  lemma {:induction false} FlushSends(s: State, order: seq<Key>, key: Key)
    requires forall i, j :: 0 <= i < j < |order| ==> order[i] != order[j]
    ensures SentTo(HeldInOrder(s, order), key) == if key in order then HeldBy(PhaseOf(s, key)) else []
  {
    if order != [] {
      FlushSends(s, order[1..], key);
      assert key in order <==> key == order[0] || key in order[1..];
      if key == order[0] {
        assert key !in order[1..];
      }
      var rest := HeldInOrder(s, order[1..]);
      if HeldInOrder(s, order) != rest {
        assert HeldInOrder(s, order)[1..] == rest;
      }
    }
  }

  /** Sending what is held, as the end of its window would, sends the newest push offered. */
  lemma EndingSendsTheNewest(t: seq<KeyEvent>)
    ensures var sent := PhaseSent(Quiet, t) + HeldBy(PhaseFinal(Quiet, t));
      Within(sent, Offers(t)) && Newest(sent) == Newest(Offers(t))
  {
    var p := PhaseFinal(Quiet, t);
    SentWithinOffers(Quiet, t + [WindowEnd]);
    OneMore(Quiet, t, WindowEnd);
    OffersUnchanged(t);
    LatestFrom(Quiet, t, [], []);
    hide PhaseSent, PhaseFinal, PhaseNext, Offers, Within;
    assert PhaseOut(p, WindowEnd) == HeldBy(p);
    assert HeldBy(Quiet) + Offers(t) == [] + Offers(t) == Offers(t);
    assert [] + PhaseSent(Quiet, t) == PhaseSent(Quiet, t);
    if HeldBy(p) == [] {
      assert PhaseSent(Quiet, t) + [] == PhaseSent(Quiet, t);
    }
  }

  /** A flush leaves nothing newer behind: after it, the latest push offered has been sent. */
  lemma FlushSendsTheNewest(window: Time, clock: Time, es: seq<Event>, order: seq<Key>, key: Key)
    requires BeforeFlush(es)
    requires Enabled(Final(Init(window, clock), es), Flush(order))
    ensures var s := Final(Init(window, clock), es);
      var sent := SentTo(Commits(Init(window, clock), es) + Out(s, Flush(order)), key);
      && Within(sent, Offers(Seen(es, key)))
      && Newest(sent) == Newest(Offers(Seen(es, key)))
  {
    var s := Final(Init(window, clock), es);
    KeysDoNotInterfere(Init(window, clock), es, key);
    SentToJoined(Commits(Init(window, clock), es), Out(s, Flush(order)), key);
    FlushSends(s, order, key);
    EndingSendsTheNewest(Seen(es, key));
    assert key !in order ==> HeldBy(PhaseOf(s, key)) == [];
  }

  lemma {:induction false} OneMore(p: Phase, t: seq<KeyEvent>, e: KeyEvent)
    ensures PhaseSent(p, t + [e]) == PhaseSent(p, t) + PhaseOut(PhaseFinal(p, t), e)
    decreases |t|
  {
    if t == [] {
      assert (t + [e])[1..] == [];
    } else {
      assert (t + [e])[1..] == t[1..] + [e];
      OneMore(PhaseNext(p, t[0]), t[1..], e);
    }
  }

  lemma {:induction false} OffersUnchanged(t: seq<KeyEvent>)
    ensures Offers(t + [WindowEnd]) == Offers(t)
  {
    if t == [] {
      assert (t + [WindowEnd])[1..] == [];
    } else {
      assert (t + [WindowEnd])[1..] == t[1..] + [WindowEnd];
      OffersUnchanged(t[1..]);
    }
  }
}

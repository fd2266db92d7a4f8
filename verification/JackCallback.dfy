/** One audio callback from start to end, whatever the writer does meanwhile: how much sound it plays. */
module JackCallback {
  import opened Bytes
  import opened JackWords
  import opened Jack

  predicate NoCallbacks(ls: seq<Label>) { forall i :: 0 <= i < |ls| ==> !ls[i].Callback? }

  /** The callback looks at a ring. */
  predicate Looks(rig: Rig, s: State, l: Label) {
    l.ReaderStep? && s.reader.Scanning? && s.reader.at < rig.channels
  }

  /** The bytes in the emptiest ring, each ring at the moment the callback looks at it; `least` so far. */
  function Seen(rig: Rig, s: State, l: Label, least: nat): nat
    requires Shaped(rig, s)
  {
    if !Looks(rig, s, l) then least
    else
      var here := |s.rings[s.reader.at]|;
      if s.reader.at == 0 || here < least then here else least
  }

  function LeastSeen(rig: Rig, s: State, ls: seq<Label>, least: nat): nat
    requires Shaped(rig, s)
    decreases |ls|
  {
    if ls == [] || Next(rig, s, ls[0]).None? then least
    else LeastSeen(rig, Next(rig, s, ls[0]).value, ls[1..], Seen(rig, s, ls[0], least))
  }

  /** A port gains `n` slots: `count` samples, then silence. */
  ghost predicate Gains(before: seq<Slot>, after: seq<Slot>, n: nat, count: int) {
    && 0 <= count <= n
    && exists words: seq<Word> :: |words| == count && after == before + Sounds(words) + Silent(n - count)
  }

  /** Every ring holds at least `k` samples. */
  predicate Holds(s: State, k: nat) { forall c :: 0 <= c < |s.rings| ==> |s.rings[c]| >= 4 * k }

  /** The callback for `n` frames that found `s` is under way, or over, in `u`. */
  ghost predicate Under(rig: Rig, s: State, u: State, n: nat, k: nat, least: nat) {
    && Shaped(rig, s) && Shaped(rig, u)
    && match u.reader
       case Scanning(frames, at, fill) =>
         && frames == n && u.ports == s.ports && Holds(u, k)
         && (at > 0 ==> fill == least && least >= 4 * k)
       case Playing(frames, at, count) =>
         && frames == n && count == Min(n, least / 4) && least >= 4 * k
         && (forall c :: 0 <= c < at && c < rig.channels ==> Gains(s.ports[c], u.ports[c], n, count))
         && (forall c :: at <= c < rig.channels ==> u.ports[c] == s.ports[c])
       case Idle =>
         && least >= 4 * k
         && (forall c :: 0 <= c < rig.channels ==> Gains(s.ports[c], u.ports[c], n, Min(n, least / 4)))
  }

  /** The writer only adds to the rings. */
  lemma WriterHelps(rig: Rig, u: State, l: Label, k: nat)
    requires Inv(rig, u) && !l.ReaderStep? && !l.Callback? && Next(rig, u, l).Some?
    ensures var v := Next(rig, u, l).value;
            v.ports == u.ports && v.reader == u.reader && (Holds(u, k) ==> Holds(v, k))
  {
  }

  /** Playing: the port whose turn it is gains its samples, because the ring still has them. */
  lemma Plays(rig: Rig, s: State, u: State, n: nat, k: nat, least: nat)
    requires Inv(rig, u) && Under(rig, s, u, n, k, least) && u.reader.Playing? && u.reader.at < rig.channels
    ensures Under(rig, s, ReaderNext(rig, u).value, n, k, least)
  {
    var at, count := u.reader.at, u.reader.count;
    assert Promised(rig, u, at);
    var words: seq<Word> :| words == Words(u.rings[at][..4 * count]);
    assert Gains(s.ports[at], ReaderNext(rig, u).value.ports[at], n, count);
  }

  lemma UnderStep(rig: Rig, s: State, u: State, l: Label, n: nat, k: nat, least: nat)
    requires Inv(rig, u) && Under(rig, s, u, n, k, least) && !l.Callback? && Next(rig, u, l).Some?
    ensures Under(rig, s, Next(rig, u, l).value, n, k, Seen(rig, u, l, least))
  {
    if !l.ReaderStep? {
      WriterHelps(rig, u, l, k);
    } else if u.reader.Playing? && u.reader.at < rig.channels {
      Plays(rig, s, u, n, k, least);
    }
  }

  lemma {:induction false} UnderRun(rig: Rig, s: State, u: State, ls: seq<Label>, t: State, n: nat, k: nat, least: nat)
    requires Inv(rig, u) && Under(rig, s, u, n, k, least) && NoCallbacks(ls) && Run(rig, u, ls) == Some(t)
    ensures Under(rig, s, t, n, k, LeastSeen(rig, u, ls, least))
    decreases |ls|
  {
    if ls != [] {
      UnderStep(rig, s, u, ls[0], n, k, least);
      StepKeepsInv(rig, u, ls[0]);
      UnderRun(rig, s, Next(rig, u, ls[0]).value, ls[1..], t, n, k, Seen(rig, u, ls[0], least));
    }
  }

  /**
   A callback for `n` frames, from its start to its end, among any steps of the writer: every port gains `n` slots,
   first as many samples as the emptiest ring held when it was looked at, `n` at most, and then silence. What every
   ring held at the start is played: silence appears only where some ring was short.
   */
  lemma CallbackPlays(rig: Rig, s: State, n: nat, ls: seq<Label>, t: State)
    requires Reachable(rig, s) && Shaped(rig, s) && s.reader.Idle? && n > 0 && NoCallbacks(ls)
    requires Next(rig, s, Callback(n)).Some? && Run(rig, Next(rig, s, Callback(n)).value, ls) == Some(t)
    requires t.reader.Idle?
    ensures var count := Min(n, LeastSeen(rig, Next(rig, s, Callback(n)).value, ls, 0) / 4);
            && Shaped(rig, t)
            && (forall c :: 0 <= c < rig.channels ==> Gains(s.ports[c], t.ports[c], n, count))
            && (forall k: nat :: Holds(s, k) ==> count >= Min(n, k))
  {
    ReachableInv(rig, s);
    StepKeepsInv(rig, s, Callback(n));
    var u := Next(rig, s, Callback(n)).value;
    UnderRun(rig, s, u, ls, t, n, 0, 0);
    forall k: nat | Holds(s, k) ensures LeastSeen(rig, u, ls, 0) >= 4 * k {
      UnderRun(rig, s, u, ls, t, n, k, 0);
    }
  }
}

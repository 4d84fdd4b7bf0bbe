/** Playing one round after another, and what follows when each round does what a script says. */
module Turns {
  /** Where play ends, and everything sent on the way. */
  datatype Played<W, M> = Played(last: W, sent: seq<M>)

  ghost function PlayAll<W, T, M>(play: (W, T) -> Played<W, M>, w: W, times: seq<T>): Played<W, M>
    decreases times
  {
    if times == [] then Played(w, [])
    else
      var round := play(w, times[0]);
      var rest := PlayAll(play, round.last, times[1..]);
      Played(rest.last, round.sent + rest.sent)
  }

  ghost function Script<M>(line: nat -> M, from: nat, to: nat): seq<M>
    decreases to - from
  {
    if from >= to then [] else [line(from)] + Script(line, from + 1, to)
  }

  ghost predicate Chained<T>(close: (T, T) -> bool, before: T, times: seq<T>)
    decreases times
  {
    times == [] || (close(before, times[0]) && Chained(close, times[0], times[1..]))
  }

  /** The time of the last of some rounds that follow a time. */
  function LastOf<T>(before: T, times: seq<T>): T { if times == [] then before else times[|times| - 1] }

  /** Every round played from state k at a time near enough sends line k and leads to state k + 1. */
  ghost predicate Follows<W(!new), T(!new), M>(
    play: (W, T) -> Played<W, M>, at: (W, nat, T) -> bool, close: (T, T) -> bool, line: nat -> M, to: nat)
  {
    forall w, k: nat, before, now | k < to && at(w, k, before) && close(before, now) ::
      at(play(w, now).last, k + 1, now) && play(w, now).sent == [line(k)]
  }

  lemma {:induction false} PlaysScript<W(!new), T(!new), M>(
    play: (W, T) -> Played<W, M>, at: (W, nat, T) -> bool, close: (T, T) -> bool, line: nat -> M, to: nat,
    w: W, from: nat, before: T, times: seq<T>)
    requires Follows(play, at, close, line, to)
    requires from + |times| == to && at(w, from, before) && Chained(close, before, times)
    ensures var all := PlayAll(play, w, times);
      at(all.last, to, LastOf(before, times)) && all.sent == Script(line, from, to)
    decreases times
  {
    if times != [] {
      var round := play(w, times[0]);
      assert at(round.last, from + 1, times[0]) && round.sent == [line(from)];
      PlaysScript(play, at, close, line, to, round.last, from + 1, times[0], times[1..]);
      assert LastOf(before, times) == LastOf(times[0], times[1..]);
    }
  }

  lemma {:induction false} PlayOn<W, T, M>(play: (W, T) -> Played<W, M>, w: W, first: seq<T>, second: seq<T>)
    ensures var a := PlayAll(play, w, first);
      var b := PlayAll(play, a.last, second);
      PlayAll(play, w, first + second) == Played(b.last, a.sent + b.sent)
    decreases first
  {
    if first == [] {
      assert first + second == second;
    } else {
      assert (first + second)[1..] == first[1..] + second;
      PlayOn(play, play(w, first[0]).last, first[1..], second);
    }
  }

  lemma PlayOne<W, T, M>(play: (W, T) -> Played<W, M>, w: W, now: T)
    ensures PlayAll(play, w, [now]) == play(w, now)
  {
    assert [now][1..] == [];
    assert PlayAll(play, play(w, now).last, []) == Played(play(w, now).last, []);
  }

  /** An opening round, a script, and a closing round. */
  lemma PlaysThrough<W(!new), T(!new), M>(
    play: (W, T) -> Played<W, M>, at: (W, nat, T) -> bool, close: (T, T) -> bool, line: nat -> M, to: nat,
    w: W, times: seq<T>) returns (v: W, before: T)
    requires |times| == to + 2 && Follows(play, at, close, line, to)
    requires at(play(w, times[0]).last, 0, times[0]) && Chained(close, times[0], times[1..])
    ensures at(v, to, before) && close(before, times[to + 1])
    ensures var all, last := PlayAll(play, w, times), play(v, times[to + 1]);
      all == Played(last.last, play(w, times[0]).sent + Script(line, 0, to) + last.sent)
  {
    var opening, middle, closing := times[0], times[1..to + 1], times[to + 1];
    assert times[1..] == middle + [closing] && times == [opening] + (middle + [closing]);
    ChainedParts(close, opening, middle, closing);
    var first := play(w, opening);
    PlayOne(play, w, opening);
    PlaysScript(play, at, close, line, to, first.last, 0, opening, middle);
    v, before := PlayAll(play, first.last, middle).last, LastOf(opening, middle);
    PlayOne(play, v, closing);
    PlayOn(play, first.last, middle, [closing]);
    PlayOn(play, w, [opening], middle + [closing]);
  }

  lemma {:induction false} ChainedParts<T>(close: (T, T) -> bool, before: T, middle: seq<T>, closing: T)
    requires Chained(close, before, middle + [closing])
    ensures Chained(close, before, middle) && close(LastOf(before, middle), closing)
    decreases middle
  {
    if middle == [] {
      assert (middle + [closing])[0] == closing;
    } else {
      assert (middle + [closing])[1..] == middle[1..] + [closing];
      ChainedParts(close, middle[0], middle[1..], closing);
      assert LastOf(before, middle) == LastOf(middle[0], middle[1..]);
    }
  }

  // Rounds that each take the next line of a script while there is one.

  function Up(q: nat, limit: nat): nat { if q < limit then q + 1 else q }

  function UpBy(q: nat, n: nat, limit: nat): nat { if q + n < limit then q + n else limit }

  ghost predicate Advances<W(!new), T(!new), M>(play: (W, T) -> Played<W, M>, at: (W, nat) -> bool, line: nat -> M, limit: nat) {
    forall w, t: T, q: nat | at(w, q) && q <= limit ::
      at(play(w, t).last, Up(q, limit)) && play(w, t).sent == Script(line, q, Up(q, limit))
  }

  lemma {:induction false} ScriptJoins<M>(line: nat -> M, q: nat, p: nat, r: nat)
    requires q <= p <= r
    ensures Script(line, q, p) + Script(line, p, r) == Script(line, q, r)
    decreases p - q
  {
    if q < p { ScriptJoins(line, q + 1, p, r); }
  }

  lemma {:induction false} PlaysUpTo<W(!new), T(!new), M>(
    play: (W, T) -> Played<W, M>, at: (W, nat) -> bool, line: nat -> M, limit: nat, w: W, q: nat, times: seq<T>)
    requires Advances(play, at, line, limit) && at(w, q) && q <= limit
    ensures var all := PlayAll(play, w, times);
      at(all.last, UpBy(q, |times|, limit)) && all.sent == Script(line, q, UpBy(q, |times|, limit))
    decreases times
  {
    if times != [] {
      var round := play(w, times[0]);
      assert at(round.last, Up(q, limit)) && round.sent == Script(line, q, Up(q, limit));
      PlaysUpTo(play, at, line, limit, round.last, Up(q, limit), times[1..]);
      ScriptJoins(line, q, Up(q, limit), UpBy(q, |times|, limit));
    }
  }

  // Rounds that each take any number of lines.

  lemma PlayLast<W, T, M>(play: (W, T) -> Played<W, M>, w: W, times: seq<T>, n: nat)
    requires n < |times|
    ensures var before := PlayAll(play, w, times[..n]);
      var round := play(before.last, times[n]);
      PlayAll(play, w, times[..n + 1]) == Played(round.last, before.sent + round.sent)
  {
    assert times[..n + 1] == times[..n] + [times[n]];
    PlayOne(play, PlayAll(play, w, times[..n]).last, times[n]);
    PlayOn(play, w, times[..n], [times[n]]);
  }

  /** Round b at its time takes the lines from q to some p. */
  ghost predicate Takes<W(!new), T(!new), M>(
    play: (W, T) -> Played<W, M>, at: (W, nat, nat) -> bool, line: nat -> M, times: seq<T>, w: W, b: nat, q: nat, p: nat)
    requires b < |times|
  {
    q <= p && at(play(w, times[b]).last, b + 1, p) && play(w, times[b]).sent == Script(line, q, p)
  }

  ghost predicate Carries<W(!new), T(!new), M>(
    play: (W, T) -> Played<W, M>, at: (W, nat, nat) -> bool, line: nat -> M, times: seq<T>, n: nat)
    requires n <= |times|
  {
    forall w, b: nat, q: nat | 0 < b < n && at(w, b, q) :: exists p: nat :: Takes(play, at, line, times, w, b, q, p)
  }

  lemma CarriedFirst<W, T, M>(play: (W, T) -> Played<W, M>, line: nat -> M, times: seq<T>, w: W)
    requires times != []
    ensures PlayAll(play, w, times[..1]) == Played(play(w, times[0]).last, play(w, times[0]).sent + Script(line, 0, 0))
  {
    assert times[..1] == [times[0]];
    PlayOne(play, w, times[0]);
    assert play(w, times[0]).sent + [] == play(w, times[0]).sent;
  }

  lemma ScriptGrows<M>(line: nat -> M, first: seq<M>, p: nat, q: nat)
    requires p <= q
    ensures (first + Script(line, 0, p)) + Script(line, p, q) == first + Script(line, 0, q)
  {
    ScriptJoins(line, 0, p, q);
    assert (first + Script(line, 0, p)) + Script(line, p, q) == first + (Script(line, 0, p) + Script(line, p, q));
  }

  lemma {:induction false} Carried<W(!new), T(!new), M>(
    play: (W, T) -> Played<W, M>, at: (W, nat, nat) -> bool, line: nat -> M, times: seq<T>, n: nat, w: W, first: seq<M>, b: nat)
    returns (q: nat)
    requires 0 < b <= n <= |times| && Carries(play, at, line, times, n)
    requires at(play(w, times[0]).last, 1, 0) && play(w, times[0]).sent == first
    ensures var all := PlayAll(play, w, times[..b]); at(all.last, b, q) && all.sent == first + Script(line, 0, q)
    decreases b
  {
    if b == 1 {
      q := 0;
      CarriedFirst(play, line, times, w);
    } else {
      var p := Carried(play, at, line, times, n, w, first, b - 1);
      q :| Takes(play, at, line, times, PlayAll(play, w, times[..b - 1]).last, b - 1, p, q);
      PlayLast(play, w, times, b - 1);
      ScriptGrows(line, first, p, q);
    }
  }

  // Taking in the lines of a script one by one.

  ghost function FoldAll<W, T>(take: (W, T) -> W, w: W, ts: seq<T>): W
    decreases ts
  {
    if ts == [] then w else FoldAll(take, take(w, ts[0]), ts[1..])
  }

  lemma {:induction false} FoldsScript<W(!new), T>(take: (W, T) -> W, at: (W, nat) -> bool, line: nat -> T, w: W, q: nat, r: nat)
    requires (forall v, k: nat | q <= k < r && at(v, k) :: at(take(v, line(k)), k + 1)) && at(w, q) && q <= r
    ensures at(FoldAll(take, w, Script(line, q, r)), r)
    decreases r - q
  {
    if q < r {
      assert Script(line, q, r)[1..] == Script(line, q + 1, r);
      FoldsScript(take, at, line, take(w, line(q)), q + 1, r);
    }
  }
}

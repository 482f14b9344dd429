/**
  green.py, plant mode: per-frame leaf states are smoothed twice, by a weighted
  vote over the last five frames and by waiting for three equal votes.
 */
module LeafVote {
  import opened Options

  const VOTE_WINDOW := 5
  const STABLE_FRAMES := 3

  // In the order in which the score table is built, and searched.
  datatype State = NORMAL | YELLOW | ROT | NONE

  // ---- The vote ----

  // The weights of the frames that show `s`; the newest frame weighs most.
  function Weight(history: seq<State>, s: State): nat {
    if |history| == 0 then 0
    else
      var n := |history| - 1;
      Weight(history[..n], s) + (if history[n] == s then |history| else 0)
  }

  lemma {:induction false} WeightIffPresent(history: seq<State>, s: State)
    ensures Weight(history, s) > 0 <==> s in history
  {
    if |history| > 0 {
      var n := |history| - 1;
      WeightIffPresent(history[..n], s);
      assert history == history[..n] + [history[n]];
    }
  }

  function Score(history: seq<State>, s: State): real {
    var w := Weight(history, s) as real;
    if s == ROT && w > 0.0 then w + 1.5
    else if s == YELLOW && w > 0.0 && Weight(history, ROT) == 0 then w + 1.0
    else w
  }

  // Whose score is highest; the first of several.
  function Vote(history: seq<State>): State {
    if |history| == 0 then NONE
    else
      var a := if Score(history, YELLOW) > Score(history, NORMAL) then YELLOW else NORMAL;
      var b := if Score(history, ROT) > Score(history, a) then ROT else a;
      if Score(history, NONE) > Score(history, b) then NONE else b
  }

  // The table holds every state's weight.
  ghost predicate Tallied(scores: map<State, real>, history: seq<State>) {
    && NORMAL in scores && scores[NORMAL] == Weight(history, NORMAL) as real
    && YELLOW in scores && scores[YELLOW] == Weight(history, YELLOW) as real
    && ROT in scores && scores[ROT] == Weight(history, ROT) as real
    && NONE in scores && scores[NONE] == Weight(history, NONE) as real
  }

  lemma {:induction false} WeightSnoc(history: seq<State>, i: nat, s: State)
    requires i < |history|
    ensures Weight(history[..i + 1], s) == Weight(history[..i], s) + (if history[i] == s then i + 1 else 0)
  {
    assert history[..i + 1][..i] == history[..i];
  }

  /** vote_state, with its table. */
  method VoteState(history: seq<State>) returns (state: State)
    ensures state == Vote(history)
  {
    if |history| == 0 {
      return NONE;
    }
    var scores := map[NORMAL := 0.0, YELLOW := 0.0, ROT := 0.0, NONE := 0.0];
    for i := 0 to |history|
      invariant Tallied(scores, history[..i])
    {
      WeightSnoc(history, i, NORMAL);
      WeightSnoc(history, i, YELLOW);
      WeightSnoc(history, i, ROT);
      WeightSnoc(history, i, NONE);
      scores := scores[history[i] := scores[history[i]] + (i + 1) as real];
    }
    assert history[..|history|] == history;
    if scores[ROT] > 0.0 {
      scores := scores[ROT := scores[ROT] + 1.5];
    } else if scores[YELLOW] > 0.0 {
      scores := scores[YELLOW := scores[YELLOW] + 1.0];
    }
    state := NORMAL;
    if scores[YELLOW] > scores[state] { state := YELLOW; }
    if scores[ROT] > scores[state] { state := ROT; }
    if scores[NONE] > scores[state] { state := NONE; }
  }

  /** In a full window the frames weigh one to five, the newest most. */
  lemma {:induction false} WeightOfFive(h: seq<State>, s: State)
    requires |h| == 5
    ensures Weight(h, s) == (if h[0] == s then 1 else 0) + (if h[1] == s then 2 else 0) + (if h[2] == s then 3 else 0)
                          + (if h[3] == s then 4 else 0) + (if h[4] == s then 5 else 0)
  {
    assert h[..5] == h && h[..0] == [];
    WeightSnoc(h, 0, s);
    WeightSnoc(h, 1, s);
    WeightSnoc(h, 2, s);
    WeightSnoc(h, 3, s);
    WeightSnoc(h, 4, s);
  }

  lemma {:induction false} VoteWithRot(history: seq<State>, n: real, y: real, r: real, o: real)
    requires |history| > 0 && n == Weight(history, NORMAL) as real && y == Weight(history, YELLOW) as real
    requires r == Weight(history, ROT) as real > 0.0 && o == Weight(history, NONE) as real
    ensures var vote := Vote(history);
            && (vote == ROT <==> r + 1.5 > n && r + 1.5 > y && r + 1.5 >= o)
            && (vote == YELLOW <==> y > n && y >= r + 1.5 && y >= o)
            && (vote == NORMAL <==> n >= y && n >= r + 1.5 && n >= o)
            && (vote == NONE <==> o > n && o > y && o > r + 1.5)
  {
    assert Score(history, NORMAL) == n && Score(history, YELLOW) == y;
    assert Score(history, ROT) == r + 1.5 && Score(history, NONE) == o;
  }

  lemma {:induction false} VoteWithoutRot(history: seq<State>, n: real, y: real, o: real)
    requires |history| > 0 && n == Weight(history, NORMAL) as real && y == Weight(history, YELLOW) as real
    requires Weight(history, ROT) == 0 && o == Weight(history, NONE) as real
    ensures var vote := Vote(history);
            if y > 0.0 then
              && vote != ROT
              && (vote == YELLOW <==> y + 1.0 > n && y + 1.0 >= o)
              && (vote == NORMAL <==> n >= y + 1.0 && n >= o)
              && (vote == NONE <==> o > n && o > y + 1.0)
            else vote == if o > n then NONE else NORMAL
  {
    assert Score(history, NORMAL) == n && Score(history, YELLOW) == if y > 0.0 then y + 1.0 else 0.0;
    assert Score(history, ROT) == 0.0 && Score(history, NONE) == o;
  }

  /**
    Exactly when each state wins, by weights alone. A window with a rotten leaf
    gives rot one and a half more; one without gives yellow one more. Of equals
    the first wins, in the order normal, yellow, rot, none.
   */
  lemma {:induction false} VoteByWeights(history: seq<State>)
    requires |history| > 0
    ensures var n, y, r, o := Weight(history, NORMAL) as real, Weight(history, YELLOW) as real,
                              Weight(history, ROT) as real, Weight(history, NONE) as real;
            var vote := Vote(history);
            if r > 0.0 then
              && (vote == ROT <==> r + 1.5 > n && r + 1.5 > y && r + 1.5 >= o)
              && (vote == YELLOW <==> y > n && y >= r + 1.5 && y >= o)
              && (vote == NORMAL <==> n >= y && n >= r + 1.5 && n >= o)
              && (vote == NONE <==> o > n && o > y && o > r + 1.5)
            else if y > 0.0 then
              && vote != ROT
              && (vote == YELLOW <==> y + 1.0 > n && y + 1.0 >= o)
              && (vote == NORMAL <==> n >= y + 1.0 && n >= o)
              && (vote == NONE <==> o > n && o > y + 1.0)
            else vote == if o > n then NONE else NORMAL
  {
    var n, y := Weight(history, NORMAL) as real, Weight(history, YELLOW) as real;
    var r, o := Weight(history, ROT) as real, Weight(history, NONE) as real;
    if r > 0.0 {
      VoteWithRot(history, n, y, r, o);
    } else {
      VoteWithoutRot(history, n, y, o);
    }
  }

  /** A rotten leaf in the newest frame outvotes three normal frames and a yellow one. */
  lemma {:induction false} NewRotWins()
    ensures Vote([NORMAL, NORMAL, NORMAL, YELLOW, ROT]) == ROT
  {
    var h := [NORMAL, NORMAL, NORMAL, YELLOW, ROT];
    WeightOfFive(h, NORMAL);
    WeightOfFive(h, YELLOW);
    WeightOfFive(h, ROT);
    WeightOfFive(h, NONE);
    VoteByWeights(h);
  }

  lemma VoteIsBest(history: seq<State>, s: State)
    requires |history| > 0
    ensures Score(history, s) <= Score(history, Vote(history))
  {
    match s
    case NORMAL =>
    case YELLOW =>
    case ROT =>
    case NONE =>
  }

  /** Only a state some frame of the window shows can win. */
  lemma VoteIsPresent(history: seq<State>)
    requires |history| > 0
    ensures Vote(history) in history
  {
    var s := history[0];
    WeightIffPresent(history, s);
    WeightIffPresent(history, Vote(history));
    VoteIsBest(history, s);
  }

  lemma {:induction false} WeightIsSmall(history: seq<State>, s: State)
    ensures Weight(history, s) <= Triangle(|history|)
  {
    if |history| > 0 {
      WeightIsSmall(history[..|history| - 1], s);
    }
  }

  // 1 + 2 + ... + n
  function Triangle(n: nat): nat {
    if n == 0 then 0 else Triangle(n - 1) + n
  }

  lemma {:induction false} NewestTwo(history: seq<State>, s: State)
    requires |history| >= 2
    ensures Weight(history, s) ==
            Weight(history[..|history| - 2], s)
            + (if history[|history| - 2] == s then |history| - 1 else 0)
            + (if history[|history| - 1] == s then |history| else 0)
  {
    assert history[..|history| - 1][..|history| - 2] == history[..|history| - 2];
  }

  /** Two newest frames that agree outvote any rest of the window, bonus included. */
  lemma TwoNewestWin(history: seq<State>, s: State)
    requires 2 <= |history| <= VOTE_WINDOW
    requires history[|history| - 1] == history[|history| - 2] == s
    ensures Vote(history) == s
  {
    var winner := Vote(history);
    VoteIsBest(history, s);
    NewestTwo(history, s);
    NewestTwo(history, winner);
    WeightIsSmall(history[..|history| - 2], winner);
    SmallTriangles(|history|);
    BonusIsSmall(history, s);
    BonusIsSmall(history, winner);
  }

  lemma BonusIsSmall(history: seq<State>, s: State)
    ensures Weight(history, s) as real <= Score(history, s) <= Weight(history, s) as real + 1.5
  {
  }

  lemma SmallTriangles(n: nat)
    requires 2 <= n <= VOTE_WINDOW
    ensures Triangle(n - 2) + 2 <= 2 * n - 1
  {
    assert Triangle(0) == 0 && Triangle(1) == 1 && Triangle(2) == 3 && Triangle(3) == 6;
  }

  // ---- The tracker ----

  class Stabiliser {
    var history: seq<State>
    var pending: Option<State>
    var count: nat
    var stable: State
    // Every frame's state, since the mode was entered.
    ghost var frames: seq<State>

    ghost predicate Valid()
      reads this
    {
      && history == Window(frames)
      && pending == Pending(Votes(frames))
      && count == Agreeing(Votes(frames))
      && stable == Settled(Votes(frames))
    }

    constructor ()
      ensures Valid() && frames == []
    {
      history, pending, count, stable, frames := [], None, 0, NONE, [];
    }

    /** update_stable_state */
    method UpdateStableState(current: State)
      modifies this`pending, this`count, this`stable
      ensures pending == Some(current)
      ensures count == if old(pending) == Some(current) then old(count) + 1 else 1
      ensures stable == if count >= STABLE_FRAMES then current else old(stable)
    {
      if pending == Some(current) {
        count := count + 1;
      } else {
        pending := Some(current);
        count := 1;
      }
      if count >= STABLE_FRAMES {
        stable := current;
      }
    }

    /** One frame of run_plant_mode. */
    method Frame(state: State)
      requires Valid()
      modifies this
      ensures Valid() && frames == old(frames) + [state]
    {
      WindowSlides(frames, state);
      history := history + [state];
      if |history| > VOTE_WINDOW {
        history := history[1..];
      }
      VotesGrow(frames, state);
      OneMoreVote(Votes(frames), Vote(Window(frames + [state])));
      frames := frames + [state];
      var current := VoteState(history);
      UpdateStableState(current);
    }
  }

  // The last five frames.
  function Window(frames: seq<State>): (w: seq<State>)
    ensures |w| <= VOTE_WINDOW
  {
    if |frames| <= VOTE_WINDOW then frames else frames[|frames| - VOTE_WINDOW..]
  }

  lemma WindowSlides(frames: seq<State>, state: State)
    ensures Window(frames + [state]) ==
            var longer := Window(frames) + [state];
            if |longer| > VOTE_WINDOW then longer[1..] else longer
  {
  }

  // The vote of every frame.
  function Votes(frames: seq<State>): (votes: seq<State>)
    ensures |votes| == |frames|
  {
    if |frames| == 0 then [] else Votes(frames[..|frames| - 1]) + [Vote(Window(frames))]
  }

  lemma {:induction false} VoteOfFrame(frames: seq<State>, i: nat)
    requires i < |frames|
    ensures Votes(frames)[i] == Vote(Window(frames[..i + 1]))
  {
    var n := |frames| - 1;
    if i < n {
      VoteOfFrame(frames[..n], i);
      assert frames[..n][..i + 1] == frames[..i + 1];
    } else {
      assert frames[..i + 1] == frames;
    }
  }

  lemma VotesGrow(frames: seq<State>, state: State)
    ensures Votes(frames + [state]) == Votes(frames) + [Vote(Window(frames + [state]))]
  {
    assert (frames + [state])[..|frames|] == frames;
  }

  function Pending(votes: seq<State>): Option<State> {
    if |votes| == 0 then None else Some(votes[|votes| - 1])
  }

  // How many votes, the latest included, agree with the latest.
  function Agreeing(votes: seq<State>): nat {
    if |votes| == 0 then 0
    else if Pending(votes[..|votes| - 1]) == Pending(votes) then Agreeing(votes[..|votes| - 1]) + 1
    else 1
  }

  // The last value voted three times in a row.
  function Settled(votes: seq<State>): State {
    if |votes| == 0 then NONE
    else if ThreeAgree(votes) then votes[|votes| - 1]
    else Settled(votes[..|votes| - 1])
  }

  predicate ThreeAgree(votes: seq<State>) {
    && |votes| >= STABLE_FRAMES
    && votes[|votes| - 1] == votes[|votes| - 2] == votes[|votes| - 3]
  }

  // Counting agreeing votes to three is looking at the last three.
  lemma {:induction false} CountToThree(votes: seq<State>)
    ensures Agreeing(votes) >= STABLE_FRAMES <==> ThreeAgree(votes)
  {
    if |votes| > 1 {
      var one := votes[..|votes| - 1];
      assert one[|one| - 1] == votes[|votes| - 2];
      if |one| > 1 {
        var two := one[..|one| - 1];
        assert two[|two| - 1] == votes[|votes| - 3];
        assert Agreeing(two) >= 1;
      }
    }
  }

  // Which is what update_stable_state keeps up to date.
  lemma OneMoreVote(votes: seq<State>, v: State)
    ensures Pending(votes + [v]) == Some(v)
    ensures Agreeing(votes + [v]) == if Pending(votes) == Some(v) then Agreeing(votes) + 1 else 1
    ensures Settled(votes + [v]) == if Agreeing(votes + [v]) >= STABLE_FRAMES then v else Settled(votes)
  {
    assert (votes + [v])[..|votes|] == votes;
    CountToThree(votes + [v]);
  }

  // ---- What the tracker promises ----

  // The last `n` frames all show `s`.
  predicate Lately(frames: seq<State>, n: nat, s: State) {
    n <= |frames| && forall i | |frames| - n <= i < |frames| :: frames[i] == s
  }

  lemma RecentVote(frames: seq<State>, i: nat, s: State)
    requires 0 < i < |frames| && frames[i] == frames[i - 1] == s
    ensures Votes(frames)[i] == s
  {
    VoteOfFrame(frames, i);
    NewestOfWindow(frames[..i + 1]);
    TwoNewestWin(Window(frames[..i + 1]), s);
  }

  lemma NewestOfWindow(frames: seq<State>)
    requires |frames| >= 2
    ensures var w := Window(frames);
            && |w| >= 2 && w[|w| - 1] == frames[|frames| - 1] && w[|w| - 2] == frames[|frames| - 2]
  {
  }

  /** Four equal frames decide, whatever came before. */
  lemma {:induction false} FourFramesDecide(frames: seq<State>, s: State)
    requires Lately(frames, 4, s)
    ensures Settled(Votes(frames)) == s
  {
    RecentVote(frames, |frames| - 1, s);
    RecentVote(frames, |frames| - 2, s);
    RecentVote(frames, |frames| - 3, s);
  }

  /** Three do not: after rot, three normal frames leave the state as it is. */
  lemma {:induction false} ThreeFramesMayNot(frames: seq<State>)
    requires Lately(frames, 4, ROT)
    ensures Settled(Votes(frames + [NORMAL] + [NORMAL] + [NORMAL])) == ROT
  {
    var one, two := frames + [NORMAL], frames + [NORMAL] + [NORMAL];
    FourFramesDecide(frames, ROT);
    VotesGrow(frames, NORMAL);
    OneOfFive(frames);
    NormalTwice(one);
    NormalTwice(two);
    TwoAreTooFew(Votes(frames), ROT, NORMAL);
  }

  lemma {:induction false} NormalTwice(frames: seq<State>)
    requires |frames| > 0 && frames[|frames| - 1] == NORMAL
    ensures Votes(frames + [NORMAL]) == Votes(frames) + [NORMAL]
  {
    VotesGrow(frames, NORMAL);
    NewestOfWindow(frames + [NORMAL]);
    TwoNewestWin(Window(frames + [NORMAL]), NORMAL);
  }

  lemma {:induction false} TwoAreTooFew(votes: seq<State>, v: State, w: State)
    requires v != w && Settled(votes) == v
    ensures Settled(votes + [v] + [w] + [w]) == v
  {
    OneMoreVote(votes, v);
    OneMoreVote(votes + [v], w);
    OneMoreVote(votes + [v] + [w], w);
  }

  lemma {:induction false} OneOfFive(frames: seq<State>)
    requires Lately(frames, 4, ROT)
    ensures Vote(Window(frames + [NORMAL])) == ROT
  {
    var window := [ROT, ROT, ROT, ROT, NORMAL];
    assert Window(frames + [NORMAL]) == window;
    NewestTwo(window, NORMAL);
    NewestTwo(window, ROT);
    NewestTwo(window, YELLOW);
    NewestTwo(window, NONE);
    var older := [ROT, ROT, ROT];
    assert window[..3] == older;
    NewestTwo(older, NORMAL);
    NewestTwo(older, ROT);
    NewestTwo(older, YELLOW);
    NewestTwo(older, NONE);
    assert older[..1] == [ROT];
  }

  /** Every change of the stable state was voted for in three consecutive frames, and seen in each of their windows. */
  lemma {:induction false} ChangesAreVoted(frames: seq<State>, i: int)
    requires |frames| > 0 && Settled(Votes(frames)) != Settled(Votes(frames[..|frames| - 1]))
    requires |frames| - 3 <= i < |frames|
    ensures i >= 0
    ensures Votes(frames)[i] == Settled(Votes(frames))
    ensures Settled(Votes(frames)) in Window(frames[..i + 1])
  {
    VotesBefore(frames);
    LastThree(Votes(frames), i);
    SeenWhenVoted(frames, i);
  }

  // The votes of all frames but the last.
  lemma {:induction false} VotesBefore(frames: seq<State>)
    requires |frames| > 0
    ensures Votes(frames[..|frames| - 1]) == Votes(frames)[..|frames| - 1]
  {
  }

  lemma {:induction false} LastThree(votes: seq<State>, i: int)
    requires |votes| > 0 && Settled(votes) != Settled(votes[..|votes| - 1])
    requires |votes| - 3 <= i < |votes|
    ensures i >= 0 && votes[i] == Settled(votes)
  {
  }

  lemma {:induction false} SeenWhenVoted(frames: seq<State>, i: nat)
    requires i < |frames|
    ensures Votes(frames)[i] in Window(frames[..i + 1])
  {
    VoteOfFrame(frames, i);
    VoteIsPresent(Window(frames[..i + 1]));
  }

  /** So the stable state, once it has changed, is the same after each of the next two frames. */
  lemma {:induction false} NoFlicker(votes: seq<State>, v: State, w: State, x: State)
    requires Settled(votes + [v]) != Settled(votes)
    ensures Settled(votes + [v] + [w]) == Settled(votes + [v])
    ensures Settled(votes + [v] + [w] + [x]) == Settled(votes + [v])
  {
    var one, two := votes + [v], votes + [v] + [w];
    ChangeNeedsThree(votes, v);
    OneMoreVote(one, w);
    CountToThree(two);
    OneMoreVote(two, x);
    CountToThree(two + [x]);
  }

  lemma {:induction false} ChangeNeedsThree(votes: seq<State>, v: State)
    requires Settled(votes + [v]) != Settled(votes)
    ensures ThreeAgree(votes + [v]) && Settled(votes + [v]) == v
  {
    OneMoreVote(votes, v);
    CountToThree(votes + [v]);
  }
}

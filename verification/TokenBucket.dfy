/** The in-process rate limiter (resilience/ratelimit.go:31-70) over real numbers. */
module TokenBuckets {
  datatype Bucket = Bucket(tokens: real, rps: real, burst: real, lastTick: real)

  predicate Sound(b: Bucket) { 0.0 <= b.tokens <= b.burst && b.rps >= 0.0 }

  /** Tokens earned in `seconds`. */
  function Earned(seconds: real, rps: real): real { seconds * rps }

  lemma EarnedAdds(x: real, y: real, rps: real)
    ensures Earned(x + y, rps) == Earned(x, rps) + Earned(y, rps)
    ensures x >= 0.0 && rps >= 0.0 ==> Earned(x, rps) >= 0.0
    ensures Earned(1.0, rps) == rps
  {}

  function Refilled(b: Bucket, now: real): real {
    var t := b.tokens + Earned(now - b.lastTick, b.rps);
    if t > b.burst then b.burst else t
  }

  function Called(b: Bucket, now: real): Bucket {
    var t := Refilled(b, now);
    b.(lastTick := now, tokens := if t < 1.0 then t else t - 1.0)
  }

  function Admits(b: Bucket, now: real): nat { if Refilled(b, now) < 1.0 then 0 else 1 }

  class TokenBucket {
    var tokens: real
    const rps: real
    const burst: real
    var lastTick: real

    constructor (rps: real, burst: nat, now: real)
      ensures Value() == Bucket(burst as real, rps, burst as real, now)
    {
      this.tokens, this.rps, this.burst, this.lastTick := burst as real, rps, burst as real, now;
    }

    ghost function Value(): Bucket reads this { Bucket(tokens, rps, burst, lastTick) }

    method Allow(now: real) returns (ok: bool)
      modifies this
      ensures Value() == Called(old(Value()), now) && ok == (Admits(old(Value()), now) == 1)
      ensures var t := old(tokens) + (now - old(lastTick)) * rps;
              var stock := if t > burst then burst else t;
              lastTick == now && (ok <==> stock >= 1.0) && tokens == if ok then stock - 1.0 else stock
    {
      var elapsed := now - lastTick;
      lastTick := now;
      tokens := tokens + elapsed * rps;
      if tokens > burst { tokens := burst; }
      if tokens < 1.0 { return false; }
      tokens := tokens - 1.0;
      return true;
    }
  }

  // ----- whole runs

  ghost predicate Ordered(start: real, times: seq<real>) {
    && (forall i :: 0 <= i < |times| ==> start <= times[i])
    && (forall i, j :: 0 <= i < j < |times| ==> times[i] <= times[j])
  }

  function After(b: Bucket, times: seq<real>): Bucket
    decreases |times|
  {
    if times == [] then b else After(Called(b, times[0]), times[1..])
  }

  function Admitted(b: Bucket, times: seq<real>): nat
    decreases |times|
  {
    if times == [] then 0 else Admits(b, times[0]) + Admitted(Called(b, times[0]), times[1..])
  }

  lemma CallKeeps(b: Bucket, now: real)
    requires Sound(b) && b.lastTick <= now
    ensures Sound(Called(b, now)) && Called(b, now).lastTick == now
    ensures Admits(b, now) as real + Called(b, now).tokens <= b.burst
    ensures Admits(b, now) as real + Called(b, now).tokens <= b.tokens + Earned(now - b.lastTick, b.rps)
  {
    EarnedAdds(now - b.lastTick, 0.0, b.rps);
  }

  /** What is admitted is paid for by the stock and the refill. */
  lemma {:induction false} Paid(b: Bucket, times: seq<real>)
    requires Sound(b) && Ordered(b.lastTick, times)
    ensures Sound(After(b, times)) && After(b, times).rps == b.rps && After(b, times).burst == b.burst
    ensures After(b, times).lastTick == if times == [] then b.lastTick else times[|times| - 1]
    ensures Admitted(b, times) as real + After(b, times).tokens <= b.tokens + Earned(After(b, times).lastTick - b.lastTick, b.rps)
    decreases |times|
  {
    if times != [] {
      CallKeeps(b, times[0]);
      var b' := Called(b, times[0]);
      Paid(b', times[1..]);
      var end := After(b, times).lastTick;
      EarnedAdds(b'.lastTick - b.lastTick, end - b'.lastTick, b.rps);
    }
  }

  lemma {:induction false} AfterSplit(b: Bucket, times: seq<real>, i: nat)
    requires i <= |times|
    ensures After(b, times) == After(After(b, times[..i]), times[i..])
    ensures Admitted(b, times) == Admitted(b, times[..i]) + Admitted(After(b, times[..i]), times[i..])
    decreases i
  {
    if i == 0 {
      assert times[..0] == [] && times[0..] == times;
    } else {
      AfterSplit(Called(b, times[0]), times[1..], i - 1);
      assert times[..i][1..] == times[1..][..i - 1] && times[1..][i - 1..] == times[i..];
      assert times[..i][0] == times[0];
    }
  }

  lemma WindowFromHere(b: Bucket, window: seq<real>)
    requires Sound(b) && window != [] && Ordered(b.lastTick, window)
    ensures Admitted(b, window) as real <= b.burst + Earned(window[|window| - 1] - window[0], b.rps)
  {
    CallKeeps(b, window[0]);
    var next, rest := Called(b, window[0]), window[1..];
    Paid(next, rest);
    assert After(next, rest).lastTick == window[|window| - 1];
  }

  lemma OrderedPart(start: real, times: seq<real>, i: nat, j: nat)
    requires Ordered(start, times) && i < j <= |times|
    ensures Ordered(start, times[..i]) && Ordered(if i == 0 then start else times[i - 1], times[i..j])
  {}

  lemma WindowOf(b: Bucket, times: seq<real>, i: nat, j: nat)
    requires Sound(b) && Ordered(b.lastTick, times) && i <= j < |times|
    ensures Sound(After(b, times[..i])) && After(b, times[..i]).burst == b.burst && After(b, times[..i]).rps == b.rps
    ensures Ordered(After(b, times[..i]).lastTick, times[i..j + 1])
  {
    OrderedPart(b.lastTick, times, i, j + 1);
    Paid(b, times[..i]);
  }

  lemma WindowAt(b: Bucket, times: seq<real>, i: nat, j: nat)
    requires Sound(b) && Ordered(b.lastTick, times) && i <= j < |times|
    ensures Admitted(After(b, times[..i]), times[i..j + 1]) as real <= b.burst + Earned(times[j] - times[i], b.rps)
  {
    WindowOf(b, times, i, j);
    var window := times[i..j + 1];
    var (first, last) := (window[0], window[|window| - 1]);
    WindowFromHere(After(b, times[..i]), window);
    assert first == times[i] && last == times[j];
  }

  lemma WindowSplit(b: Bucket, times: seq<real>, i: nat, j: nat)
    requires i <= j < |times|
    ensures Admitted(b, times[..j + 1]) == Admitted(b, times[..i]) + Admitted(After(b, times[..i]), times[i..j + 1])
  {
    AfterSplit(b, times[..j + 1], i);
    assert times[..j + 1][..i] == times[..i] && times[..j + 1][i..] == times[i..j + 1];
  }

  /** In every run at non-decreasing times, the calls from the i-th to the j-th admit at most
      burst + rps * (t_j - t_i), and the stock stays between 0 and burst throughout. */
  lemma WindowBound(b: Bucket, times: seq<real>, i: nat, j: nat)
    requires Sound(b) && Ordered(b.lastTick, times) && i <= j < |times|
    ensures Sound(After(b, times[..i]))
    ensures Admitted(After(b, times[..i]), times[i..j + 1]) as real <= b.burst + Earned(times[j] - times[i], b.rps)
    ensures Admitted(b, times[..j + 1]) == Admitted(b, times[..i]) + Admitted(After(b, times[..i]), times[i..j + 1])
  {
    WindowOf(b, times, i, j);
    WindowAt(b, times, i, j);
    WindowSplit(b, times, i, j);
  }

  // ----- nothing is withheld

  /** Earning would overfill the bucket, so this call finds it full. */
  predicate Full(b: Bucket, now: real) { b.tokens + Earned(now - b.lastTick, b.rps) >= b.burst }

  lemma CallPays(b: Bucket, now: real)
    requires Sound(b) && b.lastTick <= now
    ensures Admits(b, now) as real + Called(b, now).tokens == if Full(b, now) then b.burst else b.tokens + Earned(now - b.lastTick, b.rps)
  {}

  /** Less than one token of what the bucket held at the start (`i` is -1), or of a full bucket at call
      `i`, and of what it earned since, was not given out. */
  predicate Spent(b: Bucket, times: seq<real>, i: int)
    requires times != []
  {
    var end := times[|times| - 1];
    && -1 <= i < |times|
    && (i == -1 ==> Admitted(b, times) as real > b.tokens + Earned(end - b.lastTick, b.rps) - 1.0)
    && (i >= 0 ==> Admitted(After(b, times[..i]), times[i..]) as real > b.burst + Earned(end - times[i], b.rps) - 1.0)
  }

  lemma SpentOnce(b: Bucket, times: seq<real>)
    requires Sound(b) && |times| == 1 && b.lastTick <= times[0] && Admits(b, times[0]) == 0
    ensures Spent(b, times, if Full(b, times[0]) then 0 else -1)
  {
    assert times[1..] == [] && times[..0] == [] && times[0..] == times;
    CallPays(b, times[0]);
    EarnedAdds(0.0, 0.0, b.rps);
  }

  lemma SpentLater(b: Bucket, times: seq<real>, i: nat)
    requires |times| > 1 && Spent(Called(b, times[0]), times[1..], i)
    ensures Spent(b, times, i + 1)
  {
    var (b', rest) := (Called(b, times[0]), times[1..]);
    assert times[..i + 1][0] == times[0] && times[..i + 1][1..] == rest[..i];
    assert After(b, times[..i + 1]) == After(b', rest[..i]);
    assert times[i + 1..] == rest[i..] && times[i + 1] == rest[i] && times[|times| - 1] == rest[|rest| - 1];
  }

  lemma SpentNow(b: Bucket, times: seq<real>)
    requires Sound(b) && |times| > 1 && b.lastTick <= times[0] && Spent(Called(b, times[0]), times[1..], -1)
    ensures Spent(b, times, if Full(b, times[0]) then 0 else -1)
  {
    assert times[..0] == [] && times[0..] == times;
    CallPays(b, times[0]);
    EarnedAdds(times[0] - b.lastTick, times[|times| - 1] - times[0], b.rps);
  }

  /** A call is refused only when the bucket is spent: since the start of the run, or since some call at
      which it was full, all but less than one of the tokens it held and earned were given out. */
  lemma {:induction false} RefusedOnlyWhenSpent(b: Bucket, times: seq<real>) returns (i: int)
    requires Sound(b) && Ordered(b.lastTick, times) && times != []
    requires Admits(After(b, times[..|times| - 1]), times[|times| - 1]) == 0
    ensures Spent(b, times, i)
    decreases |times|
  {
    if |times| == 1 {
      assert times[..0] == [];
      SpentOnce(b, times);
      i := if Full(b, times[0]) then 0 else -1;
    } else {
      var (b', rest) := (Called(b, times[0]), times[1..]);
      CallKeeps(b, times[0]);
      assert times[..|times| - 1][1..] == rest[..|rest| - 1] && times[..|times| - 1][0] == times[0];
      i := RefusedOnlyWhenSpent(b', rest);
      if i >= 0 {
        SpentLater(b, times, i);
        i := i + 1;
      } else {
        SpentNow(b, times);
        i := if Full(b, times[0]) then 0 else -1;
      }
    }
  }
}

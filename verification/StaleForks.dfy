/** The arithmetic of repeated stale-fork rollbacks: each one goes ten blocks
    deeper than the one before, up to 500 blocks. */
module StaleForks {

  datatype RecoveryState = Normal | InconsistencyDetected | RollingBack | Recovering | RecoveryFailed

  const MAX_ATTEMPTS: nat := 3
  const MAX_STALE_DEPTH: nat := 500
  const TWO_TO_THE_32: nat := 0x1_0000_0000

  /** What a stale-fork recovery depends on and changes. */
  datatype Progress = Progress(height: nat, attempts: nat, rollbacks: nat, state: RecoveryState)

  /** Depth of the n-th consecutive rollback, computed in 32 bits. */
  function StaleDepth(n: nat): nat {
    var d := 10 * n % TWO_TO_THE_32;
    if d > MAX_STALE_DEPTH then MAX_STALE_DEPTH else d
  }

  /** A 32-bit counter, one further. */
  function Bump(n: nat): nat {
    (n + 1) % TWO_TO_THE_32
  }

  /** One recovery on an intact chain, away from checkpoint heights. */
  function StaleStep(p: Progress, maxReorgDepth: nat): Progress {
    if p.attempts >= MAX_ATTEMPTS then p.(state := RecoveryFailed)
    else
      var n := Bump(p.rollbacks);
      var d := StaleDepth(n);
      if p.height <= d then Progress(p.height, p.attempts + 1, n, Normal)
      else if d > maxReorgDepth then Progress(p.height, p.attempts + 1, n, RecoveryFailed)
      else Progress(p.height - d, 0, n, Normal)
  }

  /** k recoveries in a row. */
  function Run(p: Progress, maxReorgDepth: nat, k: nat): Progress {
    if k == 0 then p else StaleStep(Run(p, maxReorgDepth, k - 1), maxReorgDepth)
  }

  /** Blocks given up by k consecutive rollbacks. */
  function Descent(k: nat): nat {
    if k == 0 then 0 else Descent(k - 1) + StaleDepth(k)
  }

  lemma DepthInRange(n: nat)
    requires 10 * n < TWO_TO_THE_32
    ensures StaleDepth(n) == if n <= 50 then 10 * n else 500
    ensures n > 0 ==> Bump(n - 1) == n
  {
  }

  /** In 32 bits the depth falls from 500 back to 4 at one count, and the count itself back to zero. */
  lemma DepthWraps()
    ensures StaleDepth(429496729) == 500 && StaleDepth(429496730) == 4
    ensures Bump(0xffff_fffe) == 0xffff_ffff && Bump(0xffff_ffff) == 0
  {
    assert 10 * 429496730 % 0x1_0000_0000 == 4;
  }

  lemma Triangle(k: int)
    ensures 5 * (k - 1) * k + 10 * k == 5 * k * (k + 1)
  {
  }

  lemma {:induction false} DescentClosedForm(k: nat)
    requires 10 * k < 0x1_0000_0000
    ensures Descent(k) == if k <= 50 then 5 * k * (k + 1) else 12750 + 500 * (k - 50)
  {
    hide StaleDepth;
    if k > 0 {
      DescentClosedForm(k - 1);
      DepthInRange(k);
      Triangle(k);
    }
  }

  /** On a tall enough chain, k recoveries in a row give up exactly Descent(k)
      blocks, each of them ending in the normal state with no attempt pending. */
  lemma {:induction false} RunDescends(p: Progress, maxReorgDepth: nat, k: nat)
    requires p.attempts < 3 && p.rollbacks == 0 && maxReorgDepth >= 500
    requires 10 * k < 0x1_0000_0000 && p.height > Descent(k)
    ensures k > 0 ==> Run(p, maxReorgDepth, k) == Progress(p.height - Descent(k), 0, k, Normal)
  {
    hide StaleDepth, StaleStep, Bump;
    if k > 0 {
      DepthInRange(k);
      RunDescends(p, maxReorgDepth, k - 1);
      StepTaken(Run(p, maxReorgDepth, k - 1), maxReorgDepth);
    }
  }

  lemma {:induction false} DescentGrows(j: nat, k: nat)
    requires j <= k
    ensures Descent(j) <= Descent(k)
  {
    if j < k { DescentGrows(j, k - 1); }
  }

  /** n is the least number of rollbacks that give up at least d blocks. */
  predicate Least(d: nat, n: nat) {
    d <= Descent(n) && (n > 0 ==> Descent(n - 1) < d)
  }

  lemma {:induction false} LeastFrom(d: nat, k: nat) returns (n: nat)
    requires 10 * k < 0x1_0000_0000 && (k > 0 ==> Descent(k - 1) < d)
    requires d <= 12750 + 500 * 429496679
    ensures Least(d, n) && 10 * n < TWO_TO_THE_32
    decreases 429496729 - k
  {
    DescentClosedForm(k);
    if d <= Descent(k) { n := k; } else { n := LeastFrom(d, k + 1); }
  }

  /** The run gets past a divergence d blocks below the tip exactly from the least
      such number of recoveries on. */
  lemma PassesDivergence(p: Progress, maxReorgDepth: nat, d: nat, n: nat, k: nat)
    requires p.attempts < 3 && p.rollbacks == 0 && maxReorgDepth >= 500
    requires 10 * k < 0x1_0000_0000 && p.height > Descent(k) && Least(d, n)
    ensures Run(p, maxReorgDepth, k).height + d <= p.height <==> k >= n
  {
    RunDescends(p, maxReorgDepth, k);
    if k >= n {
      DescentGrows(n, k);
    } else {
      DescentGrows(k, n - 1);
    }
  }

  /** When the chain is too short, each recovery costs an attempt, and from the
      fourth on they fail, with the chain untouched throughout. */
  lemma {:induction false} TooShortFails(p: Progress, maxReorgDepth: nat, k: nat)
    requires p.attempts == 0 && p.height <= StaleDepth(p.rollbacks + 1)
    requires 10 * (p.rollbacks + 4) < 0x1_0000_0000
    ensures Run(p, maxReorgDepth, k).height == p.height
    ensures var tries := if k < 3 then k else 3;
      k >= 1 ==> Run(p, maxReorgDepth, k) == Progress(p.height, tries, p.rollbacks + tries, if k == tries then Normal else RecoveryFailed)
  {
    hide StaleDepth, StaleStep, Bump;
    if k > 0 {
      TooShortFails(p, maxReorgDepth, k - 1);
      var q := Run(p, maxReorgDepth, k - 1);
      DepthInRange(p.rollbacks + 1);
      if q.attempts < MAX_ATTEMPTS {
        DepthInRange(q.rollbacks + 1);
        StepTaken(q, maxReorgDepth);
      } else {
        StepExhausted(q, maxReorgDepth);
      }
    }
  }

  lemma StepExhausted(p: Progress, maxReorgDepth: nat)
    requires p.attempts >= MAX_ATTEMPTS
    ensures StaleStep(p, maxReorgDepth) == p.(state := RecoveryFailed)
  {
  }

  lemma StepTaken(p: Progress, maxReorgDepth: nat)
    requires p.attempts < MAX_ATTEMPTS
    ensures var n := Bump(p.rollbacks);
      var d := StaleDepth(n);
      StaleStep(p, maxReorgDepth)
        == if d < p.height && d <= maxReorgDepth then Progress(p.height - d, 0, n, Normal)
           else Progress(p.height, p.attempts + 1, n, if p.height <= d then Normal else RecoveryFailed)
  {
  }
}

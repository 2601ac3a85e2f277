/** Search scores: integers, plus the two float infinities that open the
    search windows. The window arithmetic keeps the float behaviour: an
    infinity plus or minus one is the same infinity. */
module Scores {

  datatype Ext = NegInf | Fin(v: int) | PosInf

  predicate Lt(a: Ext, b: Ext) {
    match a
    case NegInf => !b.NegInf?
    case Fin(x) => (b.Fin? && x < b.v) || b.PosInf?
    case PosInf => false
  }

  predicate Le(a: Ext, b: Ext) {
    !Lt(b, a)
  }

  /** Python's `max`: the first argument unless the second is larger. */
  function MaxE(a: Ext, b: Ext): Ext {
    if Lt(a, b) then b else a
  }

  function MinE(a: Ext, b: Ext): Ext {
    if Lt(b, a) then b else a
  }

  function Neg(a: Ext): Ext {
    match a
    case NegInf => PosInf
    case Fin(x) => Fin(-x)
    case PosInf => NegInf
  }

  function Plus1(a: Ext): Ext {
    if a.Fin? then Fin(a.v + 1) else a
  }

  function Minus1(a: Ext): Ext {
    if a.Fin? then Fin(a.v - 1) else a
  }

  /** `q` forced into the window [a, b]. */
  function Clamp(q: int, a: Ext, b: Ext): Ext {
    if Le(Fin(q), a) then a else if Le(b, Fin(q)) then b else Fin(q)
  }

  /** The fail-soft guarantee of a window search that returned `v` when the exact
      value is `m`: a value strictly inside the window is exact, a value at or
      below the window bounds `m` from above, one at or above it from below. */
  predicate Sound(v: int, m: int, a: Ext, b: Ext) {
    && (Lt(a, Fin(v)) && Lt(Fin(v), b) ==> v == m)
    && (Le(Fin(v), a) ==> m <= v)
    && (Le(b, Fin(v)) ==> v <= m)
  }

  lemma NegLt(a: Ext, b: Ext)
    ensures Lt(a, b) <==> Lt(Neg(b), Neg(a))
  {
  }

  /** Negating a clamp into the negated, swapped window. */
  lemma NegClamp(q: int, a: Ext, b: Ext)
    requires Lt(a, b)
    ensures Neg(Clamp(q, Neg(b), Neg(a))) == Clamp(-q, a, b)
  {
  }

  /** A fail-hard result is also a fail-soft one. */
  lemma ClampSound(q: int, a: Ext, b: Ext)
    requires Lt(a, b)
    ensures Clamp(q, a, b).Fin?
    ensures Sound(Clamp(q, a, b).v, q, a, b)
  {
  }

  /** The null-window probe (a, a + 1) followed by a re-search only when the probe
      lands strictly inside (a, b) ends with a result sound for (a, b). */
  lemma NullWindowUpper(e: int, m: int, a: Ext, b: Ext)
    requires a.Fin? && Lt(a, b)
    requires Sound(e, m, a, Plus1(a))
    requires !(Lt(a, Fin(e)) && Lt(Fin(e), b))
    ensures Sound(e, m, a, b)
  {
  }

  /** The same for the probe (b - 1, b) of the minimizing side. */
  lemma NullWindowLower(e: int, m: int, a: Ext, b: Ext)
    requires b.Fin? && Lt(a, b)
    requires Sound(e, m, Minus1(b), b)
    requires !(Lt(a, Fin(e)) && Lt(Fin(e), b))
    ensures Sound(e, m, a, b)
  {
  }

  /** One move of the maximizing loop: `best` is the best result so far (`NegInf`
      before the first), `a` the raised alpha, `eval` a result for the window
      (a, b) whose exact value is `m`. Without a cutoff, `m` is at most `eval`,
      and any strict improvement above the original alpha is exact; on a cutoff,
      `eval` is a lower bound of `m` and is the new best. */
  lemma MaxStep(alpha: Ext, b: Ext, best: Ext, a: Ext, eval: int, m: int)
    requires a == MaxE(alpha, best) && Lt(a, b) && !best.PosInf?
    requires Sound(eval, m, a, b)
    ensures MaxE(a, Fin(eval)) == MaxE(alpha, MaxE(best, Fin(eval)))
    ensures Le(b, MaxE(a, Fin(eval))) ==> eval <= m && MaxE(best, Fin(eval)) == Fin(eval)
    ensures !Le(b, MaxE(a, Fin(eval))) ==> m <= eval
    ensures !Le(b, MaxE(a, Fin(eval))) && Lt(best, Fin(eval)) && Lt(alpha, Fin(eval)) ==> m == eval
  {
  }

  /** The same for the minimizing loop, where `b` is the lowered beta. */
  lemma MinStep(a: Ext, beta: Ext, best: Ext, b: Ext, eval: int, m: int)
    requires b == MinE(beta, best) && Lt(a, b) && !best.NegInf?
    requires Sound(eval, m, a, b)
    ensures MinE(b, Fin(eval)) == MinE(beta, MinE(best, Fin(eval)))
    ensures Le(MinE(b, Fin(eval)), a) ==> m <= eval && MinE(best, Fin(eval)) == Fin(eval)
    ensures !Le(MinE(b, Fin(eval)), a) ==> eval <= m
    ensures !Le(MinE(b, Fin(eval)), a) && Lt(Fin(eval), best) && Lt(Fin(eval), beta) ==> m == eval
  {
  }

  /** A value at or above beta clamps to beta. */
  lemma ClampAbove(q: int, lo: int, alpha: Ext, beta: Ext)
    requires Lt(alpha, beta) && Le(beta, Fin(lo)) && lo <= q
    ensures beta.Fin? && Clamp(q, alpha, beta) == beta
  {
  }

  /** A value below beta clamps to the larger of it and alpha. */
  lemma ClampBelow(q: int, alpha: Ext, beta: Ext)
    requires Lt(MaxE(alpha, Fin(q)), beta)
    ensures MaxE(alpha, Fin(q)).Fin? && Clamp(q, alpha, beta) == MaxE(alpha, Fin(q))
  {
  }

  /** One capture of the quiescence loop: `a` is alpha raised to the best score
      `p` so far and `sc` the capture's score clamped into (a, b), its exact value
      being `c`. A cutoff means the better of `p` and `c` reaches `b`; otherwise the
      raised alpha is alpha raised to that better value. */
  lemma RaiseStep(alpha: Ext, b: Ext, p: int, c: int, a: Ext, sc: int)
    requires a == MaxE(alpha, Fin(p)) && Lt(a, b)
    requires Fin(sc) == Clamp(c, a, b)
    ensures Le(b, MaxE(a, Fin(sc))) ==> Le(b, Fin(if p < c then c else p))
    ensures !Le(b, MaxE(a, Fin(sc))) ==> MaxE(a, Fin(sc)) == MaxE(alpha, Fin(if p < c then c else p))
  {
  }
}

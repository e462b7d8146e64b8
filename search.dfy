/** Leftmost search over a range of positions: where an unanchored regular expression first
    matches, and which window start a detector reports first. */
module Search {
  import opened JsValues

  /** Leftmost `q` with `p <= q < n` at which `ok` holds. */
  function LeftmostFrom(ok: nat -> bool, n: nat, p: nat): (r: Option<nat>)
    ensures r.Some? ==> p <= r.value < n && ok(r.value)
    decreases n - p
  {
    if p >= n then None else if ok(p) then Some(p) else LeftmostFrom(ok, n, p + 1)
  }

  /** Nothing before the position found satisfies `ok`, and nothing at all when none is found. */
  lemma {:induction false} LeftmostFromSpec(ok: nat -> bool, n: nat, p: nat)
    ensures LeftmostFrom(ok, n, p).None? ==> forall q :: p <= q < n ==> !ok(q)
    ensures LeftmostFrom(ok, n, p).Some? ==> forall q :: p <= q < LeftmostFrom(ok, n, p).value ==> !ok(q)
    decreases n - p
  {
    if p < n && !ok(p) {
      LeftmostFromSpec(ok, n, p + 1);
    }
  }

  /** Positions that fail `ok` can be skipped: the search from `p` finds what the search from
      a later `q` finds. */
  lemma {:induction false} LeftmostFromSkip(ok: nat -> bool, n: nat, p: nat, q: nat)
    requires p <= q
    requires forall k :: p <= k < q && k < n ==> !ok(k)
    ensures LeftmostFrom(ok, n, p) == LeftmostFrom(ok, n, q)
    decreases q - p
  {
    if p < q && p < n {
      LeftmostFromSkip(ok, n, p + 1, q);
    }
  }
}

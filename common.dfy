/** Small value types shared by the search and the agent. */
module Common {

  /** An optional value; `None` stands for the engine's "no move". */
  datatype Option<T> = None | Some(value: T)

  /** Integers extended with the two infinities the search uses as
      sentinels for "no value yet". */
  datatype ExtInt = NegInf | Fin(n: int) | PosInf

  /** Strict order: NegInf < every Fin < PosInf; Fin values compare as ints. */
  predicate Less(a: ExtInt, b: ExtInt) {
    match (a, b)
    case (NegInf, NegInf) => false
    case (NegInf, _) => true
    case (Fin(i), Fin(j)) => i < j
    case (Fin(_), PosInf) => true
    case (_, _) => false
  }

  predicate LessEq(a: ExtInt, b: ExtInt) {
    a == b || Less(a, b)
  }

  /** The larger of two values. */
  function Max(a: ExtInt, b: ExtInt): (r: ExtInt)
    ensures LessEq(a, r) && LessEq(b, r)
    ensures r == a || r == b
  {
    if Less(a, b) then b else a
  }

  /** The smaller of two values. */
  function Min(a: ExtInt, b: ExtInt): (r: ExtInt)
    ensures LessEq(r, a) && LessEq(r, b)
    ensures r == a || r == b
  {
    if Less(b, a) then b else a
  }

  /** Less is a strict total order. */
  lemma LessIsStrictTotalOrder()
    ensures forall a :: !Less(a, a)
    ensures forall a, b :: Less(a, b) ==> !Less(b, a)
    ensures forall a, b, c :: Less(a, b) && Less(b, c) ==> Less(a, c)
    ensures forall a, b :: a == b || Less(a, b) || Less(b, a)
  {
  }

  /** The running maximum of a list, taken left to right from -inf. */
  function MaxOf(vals: seq<ExtInt>): ExtInt {
    if vals == [] then NegInf else Max(MaxOf(vals[..|vals| - 1]), vals[|vals| - 1])
  }

  /** The running minimum of a list, taken left to right from +inf. */
  function MinOf(vals: seq<ExtInt>): ExtInt {
    if vals == [] then PosInf else Min(MinOf(vals[..|vals| - 1]), vals[|vals| - 1])
  }

  lemma MaxOfAppend(vals: seq<ExtInt>, v: ExtInt)
    ensures MaxOf(vals + [v]) == Max(MaxOf(vals), v)
  {
    assert (vals + [v])[..|vals|] == vals;
  }

  lemma MinOfAppend(vals: seq<ExtInt>, v: ExtInt)
    ensures MinOf(vals + [v]) == Min(MinOf(vals), v)
  {
    assert (vals + [v])[..|vals|] == vals;
  }

  /** The running maximum is an upper bound of the list and one of its
      elements, or -inf for the empty list. */
  lemma {:induction false} MaxOfIsMaximum(vals: seq<ExtInt>)
    ensures forall i :: 0 <= i < |vals| ==> LessEq(vals[i], MaxOf(vals))
    ensures vals == [] ==> MaxOf(vals) == NegInf
    ensures vals != [] ==> exists i :: 0 <= i < |vals| && MaxOf(vals) == vals[i]
  {
    if vals != [] {
      var k := |vals| - 1;
      MaxOfIsMaximum(vals[..k]);
      LessIsStrictTotalOrder();
      if MaxOf(vals) != vals[k] {
        var j :| 0 <= j < k && MaxOf(vals[..k]) == vals[..k][j];
      }
    }
  }

  /** The running minimum is a lower bound of the list and one of its
      elements, or +inf for the empty list. */
  lemma {:induction false} MinOfIsMinimum(vals: seq<ExtInt>)
    ensures forall i :: 0 <= i < |vals| ==> LessEq(MinOf(vals), vals[i])
    ensures vals == [] ==> MinOf(vals) == PosInf
    ensures vals != [] ==> exists i :: 0 <= i < |vals| && MinOf(vals) == vals[i]
  {
    if vals != [] {
      var k := |vals| - 1;
      MinOfIsMinimum(vals[..k]);
      LessIsStrictTotalOrder();
      if MinOf(vals) != vals[k] {
        var j :| 0 <= j < k && MinOf(vals[..k]) == vals[..k][j];
      }
    }
  }
}

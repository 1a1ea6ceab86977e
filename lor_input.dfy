/** The per-LOR input lists of a reconstruction call: the length check done
    before the call and the conversion of each list into a fixed-size ctypes
    float array sized by the number of coincidences. */
module LorInput {

  /** The error CPython's ctypes raises when an array type of `capacity`
      elements is given `length` initialisers, more than it can hold. */
  datatype CtypesError = TooManyInitializers(length: nat, capacity: nat)

  /** An operation that either yields a value or raises a ctypes error. */
  datatype Result<T> = Ok(value: T) | Err(error: CtypesError) {
    predicate IsFailure() {
      Err?
    }

    function PropagateFailure<U>(): Result<U>
      requires Err?
    {
      Err(error)
    }

    function Extract(): T
      requires Ok?
    {
      value
    }
  }

  /** The eight lists of one reconstruct call, in argument order: the x, y, z
      coordinates and the time of the first LOR endpoint, then of the second. */
  datatype LorLists<T> = LorLists(x1: seq<T>, y1: seq<T>, z1: seq<T>, t1: seq<T>,
                                  x2: seq<T>, y2: seq<T>, z2: seq<T>, t2: seq<T>)
  {
    /** The eight lists as one sequence, in argument order. */
    function Lists(): (ls: seq<seq<T>>)
      ensures |ls| == 8 && ls[0] == x1
    {
      [x1, y1, z1, t1, x2, y2, z2, t2]
    }

    /** The number of coincidences: the length of the first list. */
    function NCoinc(): nat {
      |x1|
    }

    /** All eight lists have the same length. */
    predicate SameLength() {
      forall a, b | 0 <= a < 8 && 0 <= b < 8 :: |Lists()[a]| == |Lists()[b]|
    }

    /** Every list has exactly n elements. */
    predicate AllOfLength(n: nat) {
      |x1| == n && |y1| == n && |z1| == n && |t1| == n
      && |x2| == n && |y2| == n && |z2| == n && |t2| == n
    }

    /** No list has more than n elements. */
    predicate NoneLongerThan(n: nat) {
      |x1| <= n && |y1| <= n && |z1| <= n && |t1| <= n
      && |x2| <= n && |y2| <= n && |z2| <= n && |t2| <= n
    }

    /** The condition under which reconstruct prints its length error: one of
        the seven other lists differs in length from the first. */
    predicate Mismatch() {
      var ncoinc := |x1|;
      |y1| != ncoinc || |z1| != ncoinc
      || |t1| != ncoinc || |x2| != ncoinc
      || |y2| != ncoinc || |z2| != ncoinc
      || |t2| != ncoinc
    }
  }

  /** `(c_float * n)(*src)`: an array of n elements, zero-initialised, whose
      elements are then set one by one from src; an initialiser beyond the
      n-th raises. */
  function CArray<T>(n: nat, src: seq<T>, zero: T): (r: Result<seq<T>>)
    ensures r.Ok? <==> |src| <= n
    ensures r.Err? ==> r.error == TooManyInitializers(|src|, n)
    ensures r.Ok? ==> |r.value| == n && r.value[..|src|] == src
    ensures r.Ok? ==> forall m | |src| <= m < n :: r.value[m] == zero
  {
    if |src| > n then Err(TooManyInitializers(|src|, n))
    else Ok(src + seq(n - |src|, _ => zero))
  }

  /** The eight C arrays built by reconstruct, in argument order, each sized
      by the number of coincidences; the first list too long to fit raises. */
  function ToCArrays<T>(l: LorLists<T>, zero: T): (r: Result<LorLists<T>>)
    ensures r.Ok? <==> l.NoneLongerThan(l.NCoinc())
    ensures r.Err? ==> r.error.capacity == l.NCoinc() < r.error.length
    ensures r.Ok? ==> r.value.AllOfLength(l.NCoinc())
    ensures r.Ok? ==> forall a | 0 <= a < 8 :: Ok(r.value.Lists()[a]) == CArray(l.NCoinc(), l.Lists()[a], zero)
  {
    var n := l.NCoinc();
    // The first list sizes the arrays, so its own conversion cannot raise.
    var x1 := CArray(n, l.x1, zero).value;
    var y1 :- CArray(n, l.y1, zero);
    var z1 :- CArray(n, l.z1, zero);
    var t1 :- CArray(n, l.t1, zero);
    var x2 :- CArray(n, l.x2, zero);
    var y2 :- CArray(n, l.y2, zero);
    var z2 :- CArray(n, l.z2, zero);
    var t2 :- CArray(n, l.t2, zero);
    Ok(LorLists(x1, y1, z1, t1, x2, y2, z2, t2))
  }

  // ---------------------------------------------------------------------
  // Properties of the length check
  // ---------------------------------------------------------------------

  /** The printed condition holds exactly when the eight lengths are not all equal. */
  lemma MismatchIffNotSameLength<T>(l: LorLists<T>)
    ensures l.Mismatch() <==> !l.SameLength()
  {
    var ls := l.Lists();
    if l.Mismatch() {
      var a := if |l.y1| != |l.x1| then 1 else if |l.z1| != |l.x1| then 2
        else if |l.t1| != |l.x1| then 3 else if |l.x2| != |l.x1| then 4
        else if |l.y2| != |l.x1| then 5 else if |l.z2| != |l.x1| then 6 else 7;
      assert |ls[a]| != |ls[0]|;
      assert !l.SameLength();
    } else {
      forall a, b | 0 <= a < 8 && 0 <= b < 8
        ensures |ls[a]| == |ls[b]|
      {
        assert |ls[a]| == |ls[0]| == |ls[b]|;
      }
    }
  }

  /** A list copies unchanged into a C array of its own length. */
  lemma CArrayExact<T>(src: seq<T>, zero: T)
    ensures CArray(|src|, src, zero) == Ok(src)
  {
    assert (src + seq(0, _ => zero)) == src;
  }

  /** When the lengths agree, the C arrays hold exactly the given lists. */
  lemma SameLengthCopiesExactly<T>(l: LorLists<T>, zero: T)
    requires l.SameLength()
    ensures ToCArrays(l, zero) == Ok(l)
  {
    var ls := l.Lists();
    assert l.AllOfLength(l.NCoinc()) by {
      assert |ls[1]| == |ls[0]| && |ls[2]| == |ls[0]| && |ls[3]| == |ls[0]|;
      assert |ls[4]| == |ls[0]| && |ls[5]| == |ls[0]| && |ls[6]| == |ls[0]|;
      assert |ls[7]| == |ls[0]|;
    }
    var r := ToCArrays(l, zero).value;
    forall a | 0 <= a < 8 ensures r.Lists()[a] == ls[a] {
      assert |ls[a]| == |ls[0]|;
      CArrayExact(ls[a], zero);
    }
    assert r.Lists() == ls;
  }

  /** A printed mismatch does not stop the call: as long as no list is longer
      than the first, the eight C arrays are built, all of the first list's
      length, shorter lists padded with zeros. */
  lemma MismatchDoesNotAbort<T>(l: LorLists<T>, zero: T)
    requires l.Mismatch() && l.NoneLongerThan(l.NCoinc())
    ensures ToCArrays(l, zero).Ok?
    ensures ToCArrays(l, zero).value.AllOfLength(|l.x1|)
  {
  }

  /** A list longer than the first makes the conversion raise before the
      reconstruction library is reached. */
  lemma LongerListRaises<T>(l: LorLists<T>, zero: T, a: nat)
    requires a < 8 && |l.Lists()[a]| > |l.x1|
    ensures l.Mismatch()
    ensures ToCArrays(l, zero).Err?
  {
  }
}

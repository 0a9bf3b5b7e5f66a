/**
 * Values shared by every stage of the gfall pipeline: the failure-compatible
 * wrappers, the errors the Python code raises, the ion key that every table
 * is joined on, and the floating-point unit transforms that the model takes
 * as given functions.
 */
module Common {

  datatype Option<+T> = None | Some(value: T)

  /** The exceptions the pipeline can raise, one constructor per cause. */
  datatype Error =
    | UnknownFieldType(entry: string)          // KeyError in the type table of the format descriptor
    | NotAnInteger(entry: string)              // ValueError from int() on a width
    | MissingIdentifier                        // AttributeError: unique_level_identifier never stored
    | IonNotFound(ion: IonKey)                 // KeyError from .loc[ion]
    | LevelIndexMissing(ion: IonKey)           // ValueError from int(NaN) on a level index
    | LevelPositionNotFound(ion: IonKey, position: int)  // KeyError from lvl_index2id.loc[position]
    | NothingToConcatenate                     // ValueError from pd.concat on an empty list

  datatype Result<+T> = Ok(value: T) | Err(error: Error) {
    predicate IsFailure() { Err? }
    function PropagateFailure<U>(): Result<U>
      requires Err?
    {
      Err(error)
    }
    function Extract(): T
      requires Ok?
    {
      value
    }
  }

  /** (atomic_number, ion_charge) or, after culling starts, (atomic_number, ion_number). */
  datatype IonKey = IonKey(atomicNumber: int, charge: int)

  /**
   * The floating-point transforms the pipeline delegates to numpy and astropy:
   * 10**x, log10, cm^-1 -> eV under the spectral equivalence, nm -> angstrom,
   * and the air-to-vacuum wavelength conversion. The model treats each as a
   * given total function and proves nothing about its numerical behaviour.
   */
  datatype Units = Units(
    pow10: real -> real,
    log10: real -> real,
    wavenumberToEv: real -> real,
    nmToAngstrom: real -> real,
    airToVacuum: real -> real)

  /** Number of elements of `s` equal to `x`. */
  function Occurrences<T(==)>(s: seq<T>, x: T): (n: nat)
    ensures n <= |s|
    ensures n > 0 <==> x in s
  {
    if s == [] then 0 else (if s[0] == x then 1 else 0) + Occurrences(s[1..], x)
  }

  predicate NoDuplicates<T(==)>(s: seq<T>)
  {
    forall i, j :: 0 <= i < j < |s| ==> s[i] != s[j]
  }

  lemma {:induction false} OccurrencesOfDistinct<T>(s: seq<T>, x: T)
    requires NoDuplicates(s)
    ensures Occurrences(s, x) == if x in s then 1 else 0
  {
    if s != [] {
      OccurrencesOfDistinct(s[1..], x);
      if s[0] == x {
        assert x !in s[1..] by {
          forall k | 0 <= k < |s[1..]| ensures s[1..][k] != x {
            assert s[1..][k] == s[k + 1];
          }
        }
      }
    }
  }
}

/**
 * Results of the extractor's operations.
 *
 * The C program has no error values: an invalid location prints a message
 * and calls exit(EXIT_FAILURE), and several paths read memory that was
 * never written.  Both become an `Err` here, so that every operation of the
 * model is total and a run that would die (or become undefined) stops with
 * a value that says why.
 */
module Outcome {

  datatype Option<+T> = None | Some(value: T)

  /** Why a run stops. */
  datatype Failure =
    /** subseq's "Invalid location" exit; it reports the 0-based start and end it was given. */
    | InvalidLocation(start: int, end: int)
    /** The ORIGIN record was never allocated: no line contained "ORIGIN". */
    | MissingOrigin
    /** The C code's behaviour is undefined from here on (a read past a string's terminator,
        an unwritten buffer, a byte that reverse_complement leaves uninitialised). */
    | Undefined

  datatype Result<+T> = Ok(value: T) | Err(error: Failure)

  /** `p` in front of a successful string result; failures pass through. */
  function PrefixWith(p: string, r: Result<string>): (q: Result<string>)
    ensures q.Ok? <==> r.Ok?
    ensures q.Err? ==> q.error == r.error
    ensures q.Ok? ==> q.value == p + r.value
  {
    match r
    case Ok(s) => Ok(p + s)
    case Err(e) => Err(e)
  }

  /** The empty prefix changes nothing. */
  lemma PrefixWithNothing(r: Result<string>)
    ensures PrefixWith("", r) == r
  {
    if r.Ok? {
      assert "" + r.value == r.value;
    }
  }

  /** Two successive prefixes are one prefix. */
  lemma PrefixWithTwice(p: string, q: string, r: Result<string>)
    ensures PrefixWith(p, PrefixWith(q, r)) == PrefixWith(p + q, r)
  {
    if r.Ok? {
      assert p + (q + r.value) == (p + q) + r.value;
    }
  }
}

/**
 The pieces of Python (and of the scheduler library) whose failure modes
 the bot's code runs into: the exceptions it can raise, `random.randint`
 with its outcome passed in as an argument, and list indexing.
 */
module Runtime {
  import opened Wrappers

  /** The exceptions the modelled code can raise. */
  datatype Exception =
    | ValueError          // randint(a, b) with a > b
    | IndexError          // list index out of range
    | KeyError            // dict lookup of a missing key
    | AttributeError      // `.lower()` called on None
    | UnboundLocalError   // `finally` reading a `connection` that connect() never bound
    | ConflictingIdError  // the scheduler's add_job with an id already in use

  /** `draw` is a possible outcome of `randint(lo, hi)`. */
  predicate InRange(lo: int, hi: int, draw: int) {
    lo <= hi ==> lo <= draw <= hi
  }

  /**
   `randint(lo, hi)` whose random outcome is `draw`: raises ValueError on an
   empty range, and otherwise yields the drawn value.
   */
  function Randint(lo: int, hi: int, draw: int): (r: Result<int, Exception>)
    requires InRange(lo, hi, draw)
    ensures r.Err? <==> hi < lo
    ensures r.Err? ==> r.error == ValueError
    ensures r.Ok? ==> lo <= r.value <= hi
  {
    if lo > hi then Err(ValueError) else Ok(draw)
  }

  /** Python's `xs[i]`, negative indices counting from the end. */
  function Index<T>(xs: seq<T>, i: int): (r: Result<T, Exception>)
    ensures r.Err? <==> !(-|xs| <= i < |xs|)
    ensures r.Err? ==> r.error == IndexError
    ensures 0 <= i < |xs| ==> r == Ok(xs[i])
    ensures r.Ok? ==> r.value in xs
  {
    if 0 <= i < |xs| then Ok(xs[i])
    else if -|xs| <= i < 0 then Ok(xs[|xs| + i])
    else Err(IndexError)
  }

  /** `xs[randint(0, len(xs) - 1)]`, the uniform pick the source uses everywhere but in get_aspiration. */
  function Choose<T>(xs: seq<T>, draw: int): (r: Result<T, Exception>)
    requires InRange(0, |xs| - 1, draw)
    ensures r.Err? <==> |xs| == 0
    ensures r.Err? ==> r.error == ValueError
    ensures r.Ok? ==> r.value in xs
  {
    match Randint(0, |xs| - 1, draw)
    case Err(e) => Err(e)
    case Ok(i) => Index(xs, i)
  }

  /** Every element of a non-empty list is reachable by some draw, and no draw fails. */
  lemma ChooseCoversAll<T>(xs: seq<T>, i: int)
    requires 0 <= i < |xs|
    ensures InRange(0, |xs| - 1, i) && Choose(xs, i) == Ok(xs[i])
  {
  }
}

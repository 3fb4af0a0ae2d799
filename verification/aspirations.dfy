/**
 get_aspiration of opus.py: a short prayer (jaculatória) from the stored
 list, at random, by id, or at random among those tagged with a given word.

 As written, the random pick draws its index from `randint(1, len)`: index 0
 is never drawn and index `len` is out of range. GetAspirationAsWritten
 models that; GetAspiration draws from `randint(0, len - 1)` as the rest of
 opus.py does.
 */
module Aspirations {
  import opened Wrappers
  import opened Runtime
  import opened Strings

  /** A row of the aspirations table; `tags` is NULL for untagged rows. */
  datatype Aspiration = Aspiration(id: int, text: string, tags: Option<string>)

  /** What get_aspiration returns: a text, an Aspiration object, or None. */
  datatype Answer = Text(text: string) | Record(aspiration: Aspiration) | NoAnswer

  /** How the random index is drawn: the source's `randint(1, len)`, or the intended `randint(0, len - 1)`. */
  datatype PickRule = OneBased | ZeroBased

  /** The randint range of a rule over a list of `n` aspirations. */
  function PickLow(rule: PickRule): int {
    if rule == OneBased then 1 else 0
  }

  function PickHigh(rule: PickRule, n: nat): int {
    if rule == OneBased then n else n - 1
  }

  /** `aspirations[randint(lo, hi)].text` with the draw passed in. */
  function PickText(xs: seq<Aspiration>, rule: PickRule, draw: int): (r: Result<Answer, Exception>)
    requires InRange(PickLow(rule), PickHigh(rule, |xs|), draw)
    ensures |xs| == 0 ==> r == Err(ValueError)
    ensures r.Ok? ==> r.value.Text? && exists a :: a in xs && a.text == r.value.text
  {
    match Randint(PickLow(rule), PickHigh(rule, |xs|), draw)
    case Err(e) => Err(e)
    case Ok(i) =>
      match Index(xs, i)
      case Err(e) => Err(e)
      case Ok(a) => Ok(Text(a.text))
  }

  /** `next((a for a in aspirations if a.id == id), None)`. */
  function FindById(xs: seq<Aspiration>, id: int): (r: Option<Aspiration>)
    ensures r.Some? ==> r.value in xs && r.value.id == id
    ensures r.None? <==> forall a :: a in xs ==> a.id != id
  {
    if xs == [] then None
    else if xs[0].id == id then Some(xs[0])
    else FindById(xs[1..], id)
  }

  /** The id lookup yields the first aspiration with that id. */
  lemma {:induction false} FindByIdFirst(xs: seq<Aspiration>, id: int, i: int)
    requires 0 <= i < |xs| && xs[i].id == id
    requires forall j :: 0 <= j < i ==> xs[j].id != id
    ensures FindById(xs, id) == Some(xs[i])
  {
    if i > 0 {
      assert forall j :: 0 <= j < i - 1 ==> xs[1..][j] == xs[j + 1];
      FindByIdFirst(xs[1..], id, i - 1);
    }
  }

  /** `tag.lower() in a.tags.lower()`, for a tagged aspiration. */
  predicate HasTag(a: Aspiration, tag: string)
    requires a.tags.Some?
  {
    Contains(Lower(a.tags.value), Lower(tag))
  }

  /** Every aspiration has tags; otherwise the filter calls `.lower()` on None. */
  predicate AllTagged(xs: seq<Aspiration>) {
    forall i :: 0 <= i < |xs| ==> xs[i].tags.Some?
  }

  /** The filter of the tag branch, keeping the list's order. */
  function WithTag(xs: seq<Aspiration>, tag: string): (f: seq<Aspiration>)
    requires AllTagged(xs)
    ensures |f| <= |xs|
    ensures forall a :: a in f <==> a in xs && HasTag(a, tag)
  {
    if xs == [] then []
    else
      assert AllTagged(xs[1..]) by {
        assert forall i :: 0 <= i < |xs| - 1 ==> xs[1..][i] == xs[i + 1];
      }
      if HasTag(xs[0], tag) then [xs[0]] + WithTag(xs[1..], tag)
      else WithTag(xs[1..], tag)
  }

  /** The tag is matched without regard to case. */
  lemma {:induction false} TagIgnoresCase(xs: seq<Aspiration>, tag: string)
    requires AllTagged(xs)
    ensures WithTag(xs, Lower(tag)) == WithTag(xs, tag)
  {
    if xs != [] {
      LowerIdempotent(tag);
      assert HasTag(xs[0], Lower(tag)) == HasTag(xs[0], tag);
      assert AllTagged(xs[1..]) by {
        assert forall i :: 0 <= i < |xs| - 1 ==> xs[1..][i] == xs[i + 1];
      }
      TagIgnoresCase(xs[1..], tag);
    }
  }

  /** The list the random pick of a call draws from, when it makes one and gets that far. */
  function PickList(xs: seq<Aspiration>, id: Option<int>, tag: Option<string>): Option<seq<Aspiration>> {
    if id.None? && tag.None? then Some(xs)
    else if id.Some? && id.value != 0 then None
    else if tag.Some? && AllTagged(xs) then Some(WithTag(xs, tag.value))
    else None
  }

  /** The draw lies in the randint range of the list the call picks from. */
  predicate DrawFits(xs: seq<Aspiration>, id: Option<int>, tag: Option<string>, rule: PickRule, draw: int) {
    PickList(xs, id, tag).Some? ==> InRange(PickLow(rule), PickHigh(rule, |PickList(xs, id, tag).value|), draw)
  }

  /**
   The branches of get_aspiration. `elif id:` tests the id's truth, so an id
   of 0 with no tag falls through every branch and returns None.
   */
  function Lookup(xs: seq<Aspiration>, id: Option<int>, tag: Option<string>, rule: PickRule, draw: int): (r: Result<Answer, Exception>)
    requires DrawFits(xs, id, tag, rule, draw)
    ensures id.None? && tag.None? && |xs| == 0 ==> r == Err(ValueError)
    ensures id.Some? && id.value != 0 ==>
      r == Ok(match FindById(xs, id.value) case Some(a) => Record(a) case None => NoAnswer)
    ensures (id.None? || id == Some(0)) && tag.Some? && !AllTagged(xs) ==> r == Err(AttributeError)
    ensures id == Some(0) && tag.None? ==> r == Ok(NoAnswer)
    ensures r.Ok? && r.value.Text? && tag.Some? ==>
      exists a :: a in xs && a.tags.Some? && HasTag(a, tag.value) && a.text == r.value.text
    ensures r.Ok? && r.value.Text? ==> exists a :: a in xs && a.text == r.value.text
  {
    if id.None? && tag.None? then PickText(xs, rule, draw)
    else if id.Some? && id.value != 0 then
      Ok(match FindById(xs, id.value) case Some(a) => Record(a) case None => NoAnswer)
    else if tag.Some? then
      if AllTagged(xs) then PickText(WithTag(xs, tag.value), rule, draw)
      else Err(AttributeError)
    else Ok(NoAnswer)
  }

  /** get_aspiration as written: the random index comes from `randint(1, len)`. */
  function GetAspirationAsWritten(xs: seq<Aspiration>, id: Option<int>, tag: Option<string>, draw: int): (r: Result<Answer, Exception>)
    requires DrawFits(xs, id, tag, OneBased, draw)
    ensures id.Some? && id.value != 0 ==> (r.Ok? && r.value != NoAnswer <==> exists a :: a in xs && a.id == id.value)
  {
    Lookup(xs, id, tag, OneBased, draw)
  }

  /** With a single stored aspiration, the plain random request always fails. */
  lemma AsWrittenSingleAspirationFails(a: Aspiration, draw: int)
    requires DrawFits([a], None, None, OneBased, draw)
    ensures GetAspirationAsWritten([a], None, None, draw) == Err(IndexError)
  {
  }

  /** The tag branch as written: when a single aspiration is stored and it carries the tag, every draw fails. */
  lemma AsWrittenTagSingleFails(a: Aspiration, tag: string, draw: int)
    requires a.tags.Some? && HasTag(a, tag) && DrawFits([a], None, Some(tag), OneBased, draw)
    ensures GetAspirationAsWritten([a], None, Some(tag), draw) == Err(IndexError)
  {
    assert WithTag([a], tag) == [a];
  }

  /** The tag branch as written: drawing the top of the range fails whenever some aspiration carries the tag. */
  lemma AsWrittenTagTopDrawFails(xs: seq<Aspiration>, tag: string)
    requires AllTagged(xs) && |WithTag(xs, tag)| > 0
    ensures DrawFits(xs, None, Some(tag), OneBased, |WithTag(xs, tag)|)
    ensures GetAspirationAsWritten(xs, None, Some(tag), |WithTag(xs, tag)|) == Err(IndexError)
  {
  }

  /** As written, drawing the top of the range fails on every non-empty list, and the first aspiration is never chosen. */
  lemma AsWrittenTopDrawFails(xs: seq<Aspiration>)
    requires |xs| > 0
    ensures DrawFits(xs, None, None, OneBased, |xs|)
    ensures GetAspirationAsWritten(xs, None, None, |xs|) == Err(IndexError)
    ensures forall draw :: DrawFits(xs, None, None, OneBased, draw) && xs[0].text !in TextsFrom(xs[1..]) ==>
      GetAspirationAsWritten(xs, None, None, draw) != Ok(Text(xs[0].text))
  {
    forall draw | DrawFits(xs, None, None, OneBased, draw) && xs[0].text !in TextsFrom(xs[1..])
      ensures GetAspirationAsWritten(xs, None, None, draw) != Ok(Text(xs[0].text))
    {
      if draw < |xs| {
        assert xs[draw] == xs[1..][draw - 1];
        TextsFromHas(xs[1..], draw - 1);
      }
    }
  }

  /** The texts of a list of aspirations. */
  function TextsFrom(xs: seq<Aspiration>): (t: seq<string>)
    ensures |t| == |xs|
    ensures forall i :: 0 <= i < |xs| ==> t[i] == xs[i].text
  {
    seq(|xs|, i requires 0 <= i < |xs| => xs[i].text)
  }

  lemma TextsFromHas(xs: seq<Aspiration>, i: int)
    requires 0 <= i < |xs|
    ensures xs[i].text in TextsFrom(xs)
  {
    assert TextsFrom(xs)[i] == xs[i].text;
  }

  /** get_aspiration with the random index drawn from `randint(0, len - 1)`. */
  function GetAspiration(xs: seq<Aspiration>, id: Option<int>, tag: Option<string>, draw: int): (r: Result<Answer, Exception>)
    requires DrawFits(xs, id, tag, ZeroBased, draw)
    ensures id.None? && tag.None? ==> (r.Err? <==> |xs| == 0)
    ensures id.Some? && id.value != 0 ==> (r.Ok? && r.value != NoAnswer <==> exists a :: a in xs && a.id == id.value)
  {
    Lookup(xs, id, tag, ZeroBased, draw)
  }

  /** Every stored aspiration can be the random one, and no draw fails. */
  lemma RandomPickCoversAll(xs: seq<Aspiration>, i: int)
    requires 0 <= i < |xs|
    ensures DrawFits(xs, None, None, ZeroBased, i)
    ensures GetAspiration(xs, None, None, i) == Ok(Text(xs[i].text))
  {
  }

  /** Every aspiration carrying the tag can be the one picked for it. */
  lemma TaggedPickCoversAll(xs: seq<Aspiration>, tag: string, a: Aspiration)
    requires AllTagged(xs) && a in xs && HasTag(a, tag)
    ensures exists draw :: DrawFits(xs, None, Some(tag), ZeroBased, draw)
                           && GetAspiration(xs, None, Some(tag), draw) == Ok(Text(a.text))
  {
    var f := WithTag(xs, tag);
    var i :| 0 <= i < |f| && f[i] == a;
    assert DrawFits(xs, None, Some(tag), ZeroBased, i) && GetAspiration(xs, None, Some(tag), i) == Ok(Text(a.text));
  }
}

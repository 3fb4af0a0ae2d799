/**
 angelus_regina_caeli of opus.py: the Marian prayer of the hour, the
 Regina Caeli in Eastertide and the Angelus otherwise (or the one asked for),
 sent with a random image of Our Lady.
 */
module Prayers {
  import opened Wrappers
  import opened Runtime
  import opened Strings
  import opened Images

  datatype Prayer = Angelus | ReginaCaeli

  /** The key of each prayer in the prayers table, and the `prayer_type` naming it. */
  function PrayerKey(p: Prayer): string {
    match p
    case Angelus => "angelus"
    case ReginaCaeli => "regina_caeli"
  }

  /** The image folder fragment of Our Lady's pictures. */
  const OurLady := "nossa-senhora"

  /** The season the calendar service names Eastertide. */
  const Easter := "easter"

  /**
   Which prayer is sent: with no type, the one of the season; with a type,
   the prayer it names, or none at all for any other text.
   */
  function ChoosePrayer(prayerType: Option<string>, season: string): (r: Option<Prayer>)
    ensures prayerType.Some? ==> (r.Some? <==> exists p :: PrayerKey(p) == prayerType.value)
    ensures r.Some? && prayerType.Some? ==> PrayerKey(r.value) == prayerType.value
  {
    match prayerType
    case None => if season == Easter then Some(ReginaCaeli) else Some(Angelus)
    case Some(t) =>
      if t == "angelus" then assert PrayerKey(Angelus) == t; Some(Angelus)
      else if t == "regina_caeli" then assert PrayerKey(ReginaCaeli) == t; Some(ReginaCaeli)
      else None
  }

  /** With no type, the Regina Caeli is sent exactly in Eastertide and the Angelus exactly outside it. */
  lemma SeasonRule(season: string)
    ensures ChoosePrayer(None, season) == Some(ReginaCaeli) <==> season == Easter
    ensures ChoosePrayer(None, season) == Some(Angelus) <==> season != Easter
  {
  }

  /** A type naming a prayer selects it whatever the season. */
  lemma ExplicitTypeOverridesSeason(p: Prayer, season: string)
    ensures ChoosePrayer(Some(PrayerKey(p)), season) == Some(p)
  {
  }

  /** The season the function decides by: the one passed in, or the calendar's when none is. */
  function SeasonOf(liturgicalSeason: Option<string>, fetched: string): string {
    liturgicalSeason.GetOr(fetched)
  }

  /** The prayer text and the image (None when no picture of Our Lady exists) sent together. */
  datatype Message = Message(prayer: string, image: Option<string>)

  /**
   angelus_regina_caeli: the chosen prayer's text from the table (KeyError
   when the table lacks it) with an image of Our Lady; `None` for a type
   naming no prayer. `fetched` is what get_liturgical_season would return.
   */
  function AngelusReginaCaeli(prayers: map<string, string>, imgs: seq<string>, prayerType: Option<string>,
                              liturgicalSeason: Option<string>, fetched: string, draw: int): (r: Result<Option<Message>, Exception>)
    requires ImageDrawOk(imgs, Some(OurLady), draw)
    ensures ChoosePrayer(prayerType, SeasonOf(liturgicalSeason, fetched)).None? ==> r == Ok(None)
    ensures forall p :: ChoosePrayer(prayerType, SeasonOf(liturgicalSeason, fetched)) == Some(p) ==>
      (r.Err? <==> PrayerKey(p) !in prayers)
      && (r.Err? ==> r.error == KeyError)
      && (r.Ok? ==> r.value.Some? && r.value.value.prayer == prayers[PrayerKey(p)])
    ensures r.Ok? && r.value.Some? && r.value.value.image.Some? ==>
      r.value.value.image.value in imgs && Contains(r.value.value.image.value, OurLady)
    ensures r.Ok? && r.value.Some? && r.value.value.image.None? ==>
      forall x :: x in imgs ==> !Contains(x, OurLady)
  {
    var image := GetImagePath(imgs, Some(OurLady), draw).value;
    match ChoosePrayer(prayerType, SeasonOf(liturgicalSeason, fetched))
    case None => Ok(None)
    case Some(p) =>
      if PrayerKey(p) in prayers then Ok(Some(Message(prayers[PrayerKey(p)], image)))
      else Err(KeyError)
  }

  /** The scheduled send passes the day's season: in Eastertide it is the Regina Caeli, outside it the Angelus. */
  lemma ScheduledPrayerFollowsSeason(prayers: map<string, string>, imgs: seq<string>, season: string,
                                     fetched: string, draw: int)
    requires ImageDrawOk(imgs, Some(OurLady), draw)
    requires "angelus" in prayers && "regina_caeli" in prayers
    ensures var r := AngelusReginaCaeli(prayers, imgs, None, Some(season), fetched, draw);
            r.Ok? && r.value.Some?
            && r.value.value.prayer == (if season == Easter then prayers["regina_caeli"] else prayers["angelus"])
  {
    SeasonRule(season);
  }
}

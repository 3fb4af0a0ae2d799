/**
 get_rosary of opus.py: which mysteries of the Rosary to pray (the day's,
 by weekday, or the ones asked for), their capitalised name, and one random
 image per mystery from the bucket folder
 "rosary/<path string>-mysteries/<number>/".
 */
module Rosary {
  import opened Wrappers
  import opened Runtime
  import opened Strings
  import opened Dates
  import opened Images

  /** The four sets of mysteries. */
  datatype Mysteries = Gloriosos | Gozosos | Dolorosos | Luminosos

  /** The type text get_rosary takes and the mysteries buttons send. */
  function MysteriesName(m: Mysteries): string {
    match m
    case Gloriosos => "gloriosos"
    case Gozosos => "gozosos"
    case Dolorosos => "dolorosos"
    case Luminosos => "luminosos"
  }

  /** The rosary table's lookup: a type text names one of the four sets or none. */
  function ParseMysteries(t: string): (r: Option<Mysteries>)
    ensures r.Some? ==> MysteriesName(r.value) == t
    ensures r.None? ==> forall m :: MysteriesName(m) != t
  {
    if t == "gloriosos" then Some(Gloriosos)
    else if t == "gozosos" then Some(Gozosos)
    else if t == "dolorosos" then Some(Dolorosos)
    else if t == "luminosos" then Some(Luminosos)
    else None
  }

  /**
   The day's mysteries, by Python's `weekday()` (0 = Monday ... 6 = Sunday),
   written as the source's four successive `if week_day in [...]` tests.
   */
  function DailyMysteries(weekday: int): (m: Mysteries)
    requires 0 <= weekday <= 6
    ensures m == Gloriosos <==> weekday == 2 || weekday == 6
    ensures m == Gozosos <==> weekday == 0 || weekday == 5
    ensures m == Dolorosos <==> weekday == 1 || weekday == 4
    ensures m == Luminosos <==> weekday == 3
  {
    var none: Option<Mysteries> := None;
    var afterFirst := if weekday in [2, 6] then Some(Gloriosos) else none;
    var afterSecond := if weekday in [0, 5] then Some(Gozosos) else afterFirst;
    var afterThird := if weekday in [1, 4] then Some(Dolorosos) else afterSecond;
    var afterFourth := if weekday in [3] then Some(Luminosos) else afterThird;
    afterFourth.GetOr(Gloriosos)
  }

  /**
   The same schedule read off the calendar: `weekday()` w is "%w" day
   (w + 1) % 7, and the glorious mysteries fall on Sunday and Wednesday, the
   joyful on Monday and Saturday, the sorrowful on Tuesday and Friday, the
   luminous on Thursday.
   */
  lemma DailyMysteriesByDayName(weekday: int)
    requires 0 <= weekday <= 6
    ensures IntToString((weekday + 1) % 7) in WeekDays
    ensures var day := WeekDays[IntToString((weekday + 1) % 7)];
            (DailyMysteries(weekday) == Gloriosos <==> day == "Domingo" || day == "Quarta-feira")
            && (DailyMysteries(weekday) == Gozosos <==> day == "Segunda-feira" || day == "Sábado")
            && (DailyMysteries(weekday) == Dolorosos <==> day == "Terça-feira" || day == "Sexta-feira")
            && (DailyMysteries(weekday) == Luminosos <==> day == "Quinta-feira")
  {
    var w := (weekday + 1) % 7;
    assert IntToString(w) == [DigitChar(w)];
    if weekday == 0 { assert IntToString(w) == "1"; }
    else if weekday == 1 { assert IntToString(w) == "2"; }
    else if weekday == 2 { assert IntToString(w) == "3"; }
    else if weekday == 3 { assert IntToString(w) == "4"; }
    else if weekday == 4 { assert IntToString(w) == "5"; }
    else if weekday == 5 { assert IntToString(w) == "6"; }
    else { assert IntToString(w) == "0"; }
  }

  /** `mysteries_path_str`: the folder word for each set. */
  function PathStr(m: Mysteries): string {
    match m
    case Gloriosos => "glorious"
    case Gozosos => "joyful"
    case Dolorosos => "sorrowful"
    case Luminosos => "luminous"
  }

  /** Distinct sets of mysteries take their images from distinct folders. */
  lemma PathStrInjective(a: Mysteries, b: Mysteries)
    ensures PathStr(a) == PathStr(b) <==> a == b
  {
  }

  /** `rosary_img_path_base`, after `.format` has filled in the bucket and region. */
  function RosaryTemplate(bucket: string, region: string): string {
    BucketBase(bucket, region) + "rosary/[name]-mysteries/[number]/"
  }

  /** The folder of one mystery's images: the template with `[name]` and then `[number]` replaced. */
  function MysteryFolder(bucket: string, region: string, m: Mysteries, index: int): string {
    ReplaceAll(ReplaceAll(RosaryTemplate(bucket, region), "[name]", PathStr(m)), "[number]", IntToString(index))
  }

  /** A text holding no '[' is left alone by any replacement of a bracketed pattern. */
  lemma ReplaceBracketedAbsent(s: string, p: string, r: string)
    requires |p| > 0 && p[0] == '[' && '[' !in s
    ensures ReplaceAll(s, p, r) == s
  {
    NotContainsWithoutFirstChar(s, p);
    ReplaceAllAbsent(s, p, r);
  }

  /** Replacing a pattern right after a prefix free of its first character: the prefix stays, the pattern becomes the replacement. */
  lemma ReplaceLeadingTag(a: string, p: string, t: string, r: string)
    requires |p| > 0 && p[0] !in a
    ensures ReplaceAll(a + p + t, p, r) == a + r + ReplaceAll(t, p, r)
  {
    assert a + p + t == a + (p + t);
    ReplaceAllSkips(a, p + t, p, r);
    ReplaceAllLeading(p, t, r);
  }

  /** Replacing the first placeholder leaves the second, which does not begin with it, and what surrounds it. */
  lemma KeepsSecondTag(mid: string, p2: string, end: string, p1: string, r: string)
    requires |p1| > 0 && p1[0] == '[' && |p2| > 0 && p2[0] == '['
    requires '[' !in mid && '[' !in p2[1..] && '[' !in end
    requires |p2 + end| >= |p1| && (p2 + end)[..|p1|] != p1
    ensures ReplaceAll(mid + p2 + end, p1, r) == mid + p2 + end
  {
    var t := p2 + end;
    assert mid + p2 + end == mid + t;
    ReplaceAllSkips(mid, t, p1, r);
    assert t[1..] == p2[1..] + end;
    ReplaceBracketedAbsent(t[1..], p1, r);
    assert [t[0]] + t[1..] == t;
  }

  /**
   A text "<a><p1><mid><p2><end>" in which the two bracketed placeholders are
   the only '[' and the second does not begin with the first: replacing the
   first and then the second yields "<a><r1><mid><r2><end>".
   */
  lemma ReplaceTwoTags(a: string, p1: string, mid: string, p2: string, end: string, r1: string, r2: string)
    requires |p1| > 0 && p1[0] == '[' && |p2| > 0 && p2[0] == '['
    requires '[' !in a && '[' !in mid && '[' !in p2[1..] && '[' !in end && '[' !in r1
    requires |p2 + end| >= |p1| && (p2 + end)[..|p1|] != p1
    ensures ReplaceAll(ReplaceAll(a + p1 + mid + p2 + end, p1, r1), p2, r2) == a + r1 + mid + r2 + end
  {
    calc {
      ReplaceAll(a + p1 + mid + p2 + end, p1, r1);
    == { assert a + p1 + mid + p2 + end == a + p1 + (mid + p2 + end);
         ReplaceLeadingTag(a, p1, mid + p2 + end, r1); }
      a + r1 + ReplaceAll(mid + p2 + end, p1, r1);
    == { KeepsSecondTag(mid, p2, end, p1, r1); }
      a + r1 + (mid + p2 + end);
    == { assert a + r1 + (mid + p2 + end) == (a + r1 + mid) + p2 + end; }
      (a + r1 + mid) + p2 + end;
    }
    calc {
      ReplaceAll((a + r1 + mid) + p2 + end, p2, r2);
    == { ReplaceLeadingTag(a + r1 + mid, p2, end, r2); }
      a + r1 + mid + r2 + ReplaceAll(end, p2, r2);
    == { ReplaceBracketedAbsent(end, p2, r2); }
      a + r1 + mid + r2 + end;
    }
  }

  /** The rosary template split at its two placeholders. */
  lemma TemplateSplit(bucket: string, region: string)
    ensures RosaryTemplate(bucket, region) == BucketBase(bucket, region) + "rosary/" + "[name]" + "-mysteries/" + "[number]" + "/"
  {
  }

  /** The placeholders and the text between them meet the conditions of ReplaceTwoTags. */
  lemma TemplateTags()
    ensures '[' !in "-mysteries/" && '[' !in "[number]"[1..] && '[' !in "/"
    ensures ("[number]" + "/")[..6] != "[name]"
  {
    assert "[number]"[1..] == "number]";
    assert ("[number]" + "/")[2] != "[name]"[2];
  }

  /**
   When neither the bucket nor the region holds a '[', the folder is the
   plain path "<base>rosary/<path string>-mysteries/<index>/".
   */
  lemma MysteryFolderShape(bucket: string, region: string, m: Mysteries, index: int)
    requires '[' !in bucket && '[' !in region
    ensures MysteryFolder(bucket, region, m, index) == FolderPath(bucket, region, m, index)
  {
    TemplateSplit(bucket, region);
    TemplateTags();
    NoBracketInBase(bucket, region);
    NoBracketInPath(m);
    ReplaceTwoTags(BucketBase(bucket, region) + "rosary/", "[name]", "-mysteries/", "[number]", "/", PathStr(m), IntToString(index));
  }

  lemma NoBracketInPath(m: Mysteries)
    ensures '[' !in PathStr(m)
  {
  }

  lemma NoBracketInBase(bucket: string, region: string)
    requires '[' !in bucket && '[' !in region
    ensures '[' !in BucketBase(bucket, region) + "rosary/"
  {
  }

  lemma NoBracketInInt(i: int)
    ensures '[' !in IntToString(i)
  {
    var n := IntToString(i);
    forall j | 0 <= j < |n|
      ensures n[j] != '['
    {
      if j > 0 {
        assert n[j] == n[1..][j - 1];
      }
    }
  }

  /** The mysteries get_rosary ends up with: the ones asked for, or the day's. */
  function Resolve(mysteriesType: Option<string>, weekday: int): Option<Mysteries>
    requires 0 <= weekday <= 6
  {
    match mysteriesType
    case None => Some(DailyMysteries(weekday))
    case Some(t) => ParseMysteries(t)
  }

  /** The five draws each lie within the randint range of their mystery's images. */
  predicate DrawsOk(imgs: seq<string>, folders: seq<string>, draws: seq<int>) {
    |draws| == |folders|
    && forall i :: 0 <= i < |folders| ==> InRange(0, |Matching(imgs, folders[i])| - 1, draws[i])
  }

  /** Some image lies in the folder. */
  predicate HasImages(imgs: seq<string>, folder: string) {
    Matching(imgs, folder) != []
  }

  /** The loop over the mysteries: one random image per folder, ValueError at the first folder without one. */
  function PickImages(imgs: seq<string>, folders: seq<string>, draws: seq<int>): (r: Result<seq<string>, Exception>)
    requires DrawsOk(imgs, folders, draws)
    ensures r.Err? ==> r.error == ValueError
    ensures r.Ok? ==> |r.value| == |folders|
  {
    if folders == [] then Ok([])
    else
      match Choose(Matching(imgs, folders[0]), draws[0])
      case Err(e) => Err(e)
      case Ok(x) =>
        DrawsOkTail(imgs, folders, draws);
        match PickImages(imgs, folders[1..], draws[1..])
        case Err(e) => Err(e)
        case Ok(rest) => Ok([x] + rest)
  }

  /** The loop completes exactly when every folder holds an image. */
  lemma {:induction false} PickImagesOk(imgs: seq<string>, folders: seq<string>, draws: seq<int>)
    requires DrawsOk(imgs, folders, draws)
    ensures PickImages(imgs, folders, draws).Ok? <==> forall i :: 0 <= i < |folders| ==> HasImages(imgs, folders[i])
  {
    if folders != [] {
      var tail := folders[1..];
      DrawsOkTail(imgs, folders, draws);
      PickImagesOk(imgs, tail, draws[1..]);
      assert forall i :: 1 <= i < |folders| ==> folders[i] == tail[i - 1];
    }
  }

  /** When every folder holds an image, each image of each folder is picked by some draws. */
  lemma {:induction false} PickImagesCovers(imgs: seq<string>, folders: seq<string>, i: int, x: string)
    requires forall j :: 0 <= j < |folders| ==> HasImages(imgs, folders[j])
    requires 0 <= i < |folders| && x in imgs && Contains(x, folders[i])
    ensures exists draws :: DrawsOk(imgs, folders, draws) && PickImages(imgs, folders, draws).Ok?
                            && PickImages(imgs, folders, draws).value[i] == x
  {
    var tail := folders[1..];
    assert forall j :: 0 <= j < |tail| ==> tail[j] == folders[j + 1];
    var m := Matching(imgs, folders[0]);
    var first: int, rest: seq<int>;
    if i == 0 {
      first :| 0 <= first < |m| && m[first] == x;
      rest := seq(|tail|, j => 0);
      PickImagesOk(imgs, tail, rest);
    } else {
      PickImagesCovers(imgs, tail, i - 1, x);
      rest :| DrawsOk(imgs, tail, rest) && PickImages(imgs, tail, rest).Ok? && PickImages(imgs, tail, rest).value[i - 1] == x;
      first := 0;
    }
    var draws := [first] + rest;
    PickImagesCons(imgs, folders, first, rest);
    var tailPicked := PickImages(imgs, tail, rest).value;
    ConsAt(m[first], tailPicked, i);
    assert PickImages(imgs, folders, draws).value[i] == x;
  }

  /** Index i of a sequence with one element in front. */
  lemma ConsAt<T>(a: T, rest: seq<T>, i: int)
    requires 0 <= i <= |rest|
    ensures ([a] + rest)[i] == if i == 0 then a else rest[i - 1]
  {
  }

  /** Prepending a draw that fits the first folder to draws that complete the rest. */
  lemma PickImagesCons(imgs: seq<string>, folders: seq<string>, first: int, rest: seq<int>)
    requires |folders| > 0 && 0 <= first < |Matching(imgs, folders[0])|
    requires DrawsOk(imgs, folders[1..], rest) && PickImages(imgs, folders[1..], rest).Ok?
    ensures DrawsOk(imgs, folders, [first] + rest)
    ensures PickImages(imgs, folders, [first] + rest)
            == Ok([Matching(imgs, folders[0])[first]] + PickImages(imgs, folders[1..], rest).value)
  {
    var draws := [first] + rest;
    assert draws[1..] == rest;
    ChooseCoversAll(Matching(imgs, folders[0]), first);
    assert forall j :: 1 <= j < |folders| ==> folders[j] == folders[1..][j - 1] && draws[j] == rest[j - 1];
  }

  /** Each picked image comes from the list and lies in its own folder. */
  lemma {:induction false} PickImagesInFolders(imgs: seq<string>, folders: seq<string>, draws: seq<int>)
    requires DrawsOk(imgs, folders, draws) && PickImages(imgs, folders, draws).Ok?
    ensures forall i :: 0 <= i < |folders| ==>
      PickImages(imgs, folders, draws).value[i] in imgs && Contains(PickImages(imgs, folders, draws).value[i], folders[i])
  {
    if folders != [] {
      var tail := folders[1..];
      DrawsOkTail(imgs, folders, draws);
      PickImagesInFolders(imgs, tail, draws[1..]);
      var r, rest := PickImages(imgs, folders, draws).value, PickImages(imgs, tail, draws[1..]).value;
      assert r == [Choose(Matching(imgs, folders[0]), draws[0]).value] + rest;
      forall i | 0 <= i < |folders|
        ensures r[i] in imgs && Contains(r[i], folders[i])
      {
        if i == 0 {
          assert r[0] in Matching(imgs, folders[0]);
        } else {
          assert r[i] == rest[i - 1] && folders[i] == tail[i - 1];
        }
      }
    }
  }

  /** The draws of the later folders fit those folders. */
  lemma DrawsOkTail(imgs: seq<string>, folders: seq<string>, draws: seq<int>)
    requires DrawsOk(imgs, folders, draws) && |folders| > 0
    ensures DrawsOk(imgs, folders[1..], draws[1..])
  {
    var tail := folders[1..];
    forall i | 0 <= i < |tail|
      ensures InRange(0, |Matching(imgs, tail[i])| - 1, draws[1..][i])
    {
      assert tail[i] == folders[i + 1] && draws[1..][i] == draws[i + 1];
    }
  }

  /** The folder of mystery `index`, written out: "<base>rosary/<path string>-mysteries/<index>/". */
  function FolderPath(bucket: string, region: string, m: Mysteries, index: int): string {
    BucketBase(bucket, region) + "rosary/" + PathStr(m) + "-mysteries/" + IntToString(index) + "/"
  }

  /** The folders of the five mysteries of a set, in order 1 to 5. */
  function Folders(bucket: string, region: string, m: Mysteries): (f: seq<string>)
    ensures |f| == 5
    ensures forall i :: 0 <= i < 5 ==> f[i] == MysteryFolder(bucket, region, m, i + 1)
  {
    seq(5, i requires 0 <= i < 5 => MysteryFolder(bucket, region, m, i + 1))
  }

  /** With no '[' in the bucket or region, folder i + 1 of a set is its written-out path. */
  lemma FoldersSpelledOut(bucket: string, region: string, m: Mysteries, i: int)
    requires '[' !in bucket && '[' !in region && 0 <= i < 5
    ensures Folders(bucket, region, m)[i] == FolderPath(bucket, region, m, i + 1)
  {
    MysteryFolderShape(bucket, region, m, i + 1);
  }

  /** What get_rosary adds to the stored mysteries: their name and the five image URLs. */
  datatype RosaryOfDay = RosaryOfDay(mysteries: Mysteries, name: string, images: seq<string>)

  /** The draws fit the image lists of the mysteries that will be resolved. */
  predicate RosaryDrawsOk(mysteriesType: Option<string>, weekday: int, bucket: string, region: string,
                          imgs: seq<string>, draws: seq<int>)
    requires 0 <= weekday <= 6
  {
    match Resolve(mysteriesType, weekday)
    case None => true
    case Some(m) => DrawsOk(imgs, Folders(bucket, region, m), draws)
  }

  /**
   get_rosary: a type outside the table's four raises KeyError; otherwise
   the result carries the type capitalised and, for each mystery 1..5, an
   image from that mystery's folder, or ValueError when a folder has none.
   */
  function GetRosary(mysteriesType: Option<string>, weekday: int, bucket: string, region: string,
                     imgs: seq<string>, draws: seq<int>): (r: Result<RosaryOfDay, Exception>)
    requires 0 <= weekday <= 6
    requires RosaryDrawsOk(mysteriesType, weekday, bucket, region, imgs, draws)
    ensures mysteriesType.Some? && ParseMysteries(mysteriesType.value).None? ==> r == Err(KeyError)
    ensures mysteriesType.None? && r.Ok? ==> r.value.mysteries == DailyMysteries(weekday)
    ensures mysteriesType.Some? && r.Ok? ==> MysteriesName(r.value.mysteries) == mysteriesType.value
    ensures r.Ok? ==> r.value.name == Capitalize(MysteriesName(r.value.mysteries))
    ensures r.Ok? ==> |r.value.images| == 5
    ensures r.Ok? ==> forall i :: 0 <= i < 5 ==>
      r.value.images[i] in imgs && Contains(r.value.images[i], MysteryFolder(bucket, region, r.value.mysteries, i + 1))
    ensures Resolve(mysteriesType, weekday).Some? ==>
      (r.Ok? <==> forall i :: 1 <= i <= 5 ==> HasImages(imgs, MysteryFolder(bucket, region, Resolve(mysteriesType, weekday).value, i)))
    ensures Resolve(mysteriesType, weekday).Some? && r.Err? ==> r.error == ValueError
  {
    match Resolve(mysteriesType, weekday)
    case None => Err(KeyError)
    case Some(m) =>
      var folders := Folders(bucket, region, m);
      PickImagesOk(imgs, folders, draws);
      match PickImages(imgs, folders, draws)
      case Err(e) =>
        var i :| 0 <= i < 5 && !HasImages(imgs, folders[i]);
        assert !HasImages(imgs, MysteryFolder(bucket, region, m, i + 1));
        Err(e)
      case Ok(images) =>
        PickImagesInFolders(imgs, folders, draws);
        assert forall i :: 1 <= i <= 5 ==> folders[i - 1] == MysteryFolder(bucket, region, m, i);
        Ok(RosaryOfDay(m, Capitalize(MysteriesName(m)), images))
  }

  /** A type text is in lower case, so capitalising it only raises its first letter. */
  lemma CapitalizedName(m: Mysteries)
    ensures Capitalize(MysteriesName(m)) == [UpperChar(MysteriesName(m)[0])] + MysteriesName(m)[1..]
  {
    var n := MysteriesName(m);
    assert forall i :: 0 <= i < |n| ==> 'a' <= n[i] <= 'z';
    LowerKeepsLowercase(n[1..]);
  }

  /** The name the rosary messages show for each set. */
  lemma RosaryName(m: Mysteries)
    ensures Capitalize(MysteriesName(m)) == match m
      case Gloriosos => "Gloriosos"
      case Gozosos => "Gozosos"
      case Dolorosos => "Dolorosos"
      case Luminosos => "Luminosos"
  {
    UpperInitials();
    NameSpellings();
    match m
    case Gloriosos => CapitalizeLowerWord('g', "loriosos");
    case Gozosos => CapitalizeLowerWord('g', "ozosos");
    case Dolorosos => CapitalizeLowerWord('d', "olorosos");
    case Luminosos => CapitalizeLowerWord('l', "uminosos");
  }

  lemma NameSpellings()
    ensures "gloriosos" == ['g'] + "loriosos" && ['G'] + "loriosos" == "Gloriosos"
    ensures "gozosos" == ['g'] + "ozosos" && ['G'] + "ozosos" == "Gozosos"
    ensures "dolorosos" == ['d'] + "olorosos" && ['D'] + "olorosos" == "Dolorosos"
    ensures "luminosos" == ['l'] + "uminosos" && ['L'] + "uminosos" == "Luminosos"
  {
  }

  lemma UpperInitials()
    ensures UpperChar('g') == 'G' && UpperChar('d') == 'D' && UpperChar('l') == 'L'
  {
  }

  /** An explicit type wins over the weekday: the same type gives the same result on every day. */
  lemma ExplicitTypeIgnoresWeekday(t: string, w1: int, w2: int, bucket: string, region: string,
                                   imgs: seq<string>, draws: seq<int>)
    requires 0 <= w1 <= 6 && 0 <= w2 <= 6
    requires RosaryDrawsOk(Some(t), w1, bucket, region, imgs, draws)
    ensures RosaryDrawsOk(Some(t), w2, bucket, region, imgs, draws)
    ensures GetRosary(Some(t), w1, bucket, region, imgs, draws) == GetRosary(Some(t), w2, bucket, region, imgs, draws)
  {
  }
}

/**
 The image list of opus.py: the bucket's object URLs with the "folder"
 keys (those ending in '/') removed, and get_image_path, a random pick among
 the URLs that contain a given fragment.
 */
module Images {
  import opened Wrappers
  import opened Runtime
  import opened Strings

  /** `img_path_base`: the bucket's public URL prefix. */
  function BucketBase(bucket: string, region: string): string {
    "https://" + bucket + ".s3." + region + ".amazonaws.com/"
  }

  /**
   get_s3_bucket_keys: one URL per object key, in listing order; each URL
   starts with the base, and stripping the base gives back its key.
   */
  function BucketUrls(base: string, keys: seq<string>): (urls: seq<string>)
    ensures |urls| == |keys|
    ensures forall i :: 0 <= i < |keys| ==> base <= urls[i] && urls[i][|base|..] == keys[i]
  {
    var urls := seq(|keys|, i requires 0 <= i < |keys| => base + keys[i]);
    assert forall i :: 0 <= i < |keys| ==> urls[i][|base|..] == keys[i];
    urls
  }

  /** `item[-1] == '/'`, on a non-empty text. */
  predicate IsFolder(item: string)
    requires |item| > 0
  {
    item[|item| - 1] == '/'
  }

  /** `[item for item in items if item[-1] != '/']`. */
  function DropFolders(items: seq<string>): (files: seq<string>)
    requires forall i :: 0 <= i < |items| ==> |items[i]| > 0
    ensures |files| <= |items|
  {
    if items == [] then []
    else if IsFolder(items[0]) then DropFolders(items[1..])
    else [items[0]] + DropFolders(items[1..])
  }

  /** Exactly the items that are not folders are kept. */
  lemma {:induction false} DropFoldersMembers(items: seq<string>)
    requires forall i :: 0 <= i < |items| ==> |items[i]| > 0
    ensures forall x :: x in DropFolders(items) <==> x in items && !IsFolder(x)
  {
    if items != [] {
      NonEmptyTail(items);
      DropFoldersMembers(items[1..]);
      assert forall x :: x in items <==> x == items[0] || x in items[1..];
    }
  }

  /** Filtering a concatenation filters each part: the kept items stay in their original order. */
  lemma {:induction false} DropFoldersAppend(a: seq<string>, b: seq<string>)
    requires forall i :: 0 <= i < |a| ==> |a[i]| > 0
    requires forall i :: 0 <= i < |b| ==> |b[i]| > 0
    ensures DropFolders(a + b) == DropFolders(a) + DropFolders(b)
  {
    if a != [] {
      var ab, first := a + b, if IsFolder(a[0]) then [] else [a[0]];
      NonEmptyTail(a);
      calc {
        DropFolders(ab);
      == { assert ab[0] == a[0] && ab[1..] == a[1..] + b; }
        first + DropFolders(a[1..] + b);
      == { DropFoldersAppend(a[1..], b); }
        first + (DropFolders(a[1..]) + DropFolders(b));
      ==
        DropFolders(a) + DropFolders(b);
      }
    } else {
      assert a + b == b;
    }
  }

  lemma NonEmptyTail(items: seq<string>)
    requires |items| > 0 && forall i :: 0 <= i < |items| ==> |items[i]| > 0
    ensures forall i :: 0 <= i < |items| - 1 ==> |items[1..][i]| > 0
  {
    assert forall i :: 0 <= i < |items| - 1 ==> items[1..][i] == items[i + 1];
  }

  /** `img_list`: every non-folder URL of the bucket, in listing order. */
  function ImageList(base: string, keys: seq<string>): (imgs: seq<string>)
    requires |base| > 0
    ensures forall i :: 0 <= i < |keys| ==>
      (base + keys[i] in imgs <==> (keys[i] == [] && base[|base| - 1] != '/') || (keys[i] != [] && keys[i][|keys[i]| - 1] != '/'))
    ensures forall x :: x in imgs ==> x in BucketUrls(base, keys) && !IsFolder(x)
  {
    var urls := BucketUrls(base, keys);
    forall i | 0 <= i < |keys|
      ensures (base + keys[i])[|base + keys[i]| - 1] == if keys[i] == [] then base[|base| - 1] else keys[i][|keys[i]| - 1]
    {
      if keys[i] == [] {
        assert base + keys[i] == base;
      }
    }
    DropFoldersMembers(urls);
    DropFolders(urls)
  }

  /** `[il for il in img_list if fragment in il]`. */
  function Matching(imgs: seq<string>, fragment: string): (m: seq<string>)
    ensures |m| <= |imgs|
    ensures forall x :: x in m <==> x in imgs && Contains(x, fragment)
  {
    if imgs == [] then []
    else if Contains(imgs[0], fragment) then [imgs[0]] + Matching(imgs[1..], fragment)
    else Matching(imgs[1..], fragment)
  }

  /** The draw get_image_path hands to randint is within randint's range. */
  predicate ImageDrawOk(imgs: seq<string>, imageType: Option<string>, draw: int) {
    match imageType
    case Some(t) => InRange(0, |Matching(imgs, t)| - 1, draw)
    case None => InRange(0, |imgs| - 1, draw)
  }

  /**
   get_image_path: with a type, None when no image contains it and otherwise
   a random image that does; without one, a random image of the whole list
   (ValueError when it is empty).
   */
  function GetImagePath(imgs: seq<string>, imageType: Option<string>, draw: int): (r: Result<Option<string>, Exception>)
    requires ImageDrawOk(imgs, imageType, draw)
    ensures imageType.Some? ==> r.Ok?
    ensures imageType.Some? ==>
      (r.value.None? <==> forall x :: x in imgs ==> !Contains(x, imageType.value))
    ensures imageType.None? ==> (r.Err? <==> |imgs| == 0) && (r.Ok? ==> r.value.Some?)
    ensures r.Ok? && r.value.Some? ==> r.value.value in imgs
    ensures r.Ok? && r.value.Some? && imageType.Some? ==> Contains(r.value.value, imageType.value)
  {
    match imageType
    case Some(t) =>
      var filtered := Matching(imgs, t);
      if |filtered| == 0 then Ok(None)
      else
        (match Choose(filtered, draw)
         case Ok(x) => Ok(Some(x))
         case Err(e) => Err(e))
    case None =>
      match Choose(imgs, draw)
      case Ok(x) => Ok(Some(x))
      case Err(e) => Err(e)
  }

  /** Every image containing the fragment can be the one get_image_path picks for it. */
  lemma GetImagePathCovers(imgs: seq<string>, fragment: string, x: string)
    requires x in imgs && Contains(x, fragment)
    ensures exists draw :: ImageDrawOk(imgs, Some(fragment), draw)
                           && GetImagePath(imgs, Some(fragment), draw) == Ok(Some(x))
  {
    var m := Matching(imgs, fragment);
    var j :| 0 <= j < |m| && m[j] == x;
    ChooseCoversAll(m, j);
    assert ImageDrawOk(imgs, Some(fragment), j) && GetImagePath(imgs, Some(fragment), j) == Ok(Some(x));
  }

  /** Without a fragment, every image of a non-empty list can be picked. */
  lemma GetAnyImageCovers(imgs: seq<string>, x: string)
    requires x in imgs
    ensures exists draw :: ImageDrawOk(imgs, None, draw) && GetImagePath(imgs, None, draw) == Ok(Some(x))
  {
    var j :| 0 <= j < |imgs| && imgs[j] == x;
    ChooseCoversAll(imgs, j);
    assert ImageDrawOk(imgs, None, j) && GetImagePath(imgs, None, j) == Ok(Some(x));
  }
}

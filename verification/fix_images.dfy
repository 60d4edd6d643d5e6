/**
 * The one-off repair of the dataset's image names: every image file whose name starts
 * with `T-` is filed under the product code before its first `_` (the first such file
 * wins), and every record whose product code has a file gets that file as its image.
 * Reading and writing the files, listing the directory and the progress output are left
 * to the caller: the records and the directory listing come in as sequences.  "First" is
 * first in the listing as given; the directory's own order is unspecified, so which of
 * several files filed under one code wins depends on the listing the caller passes.
 */
module FixImages {
  import opened Options
  import opened Trick

  /** Only names starting with `T-` are product images. */
  predicate IsProductImage(f: string) {
    |f| >= 2 && f[..2] == "T-"
  }

  /** `f.split('_')[0]`: the text before the first `_`, or all of `f` when it has none. */
  function CodeOf(f: string): (c: string)
    ensures |c| <= |f| && c == f[..|c|]
    ensures '_' !in c
    ensures |c| < |f| ==> f[|c|] == '_'
    decreases |f|
  {
    if |f| == 0 || f[0] == '_' then "" else [f[0]] + CodeOf(f[1..])
  }

  /** `f` is a product image filed under `code`. */
  predicate FiledUnder(f: string, code: string) {
    IsProductImage(f) && CodeOf(f) == code
  }

  /** `files[i]` is the first product image in `files` filed under `code`. */
  predicate FirstFiledAt(files: seq<string>, code: string, i: int) {
    && 0 <= i < |files|
    && FiledUnder(files[i], code)
    && forall j :: 0 <= j < i ==> !FiledUnder(files[j], code)
  }

  /** The first product image in `files` filed under `code`. */
  function FirstImageFor(files: seq<string>, code: string): (r: Option<string>)
    ensures r.Some? ==> r.value in files && IsProductImage(r.value) && CodeOf(r.value) == code
    ensures r.None? ==> forall f :: f in files && IsProductImage(f) ==> CodeOf(f) != code
    decreases |files|
  {
    if |files| == 0 then None
    else if IsProductImage(files[0]) && CodeOf(files[0]) == code then Some(files[0])
    else FirstImageFor(files[1..], code)
  }

  /** What `FirstImageFor` finds is the earliest match: no product image before it is filed under the code. */
  lemma {:induction false} FirstImageForIsFirst(files: seq<string>, code: string)
    ensures FirstImageFor(files, code).Some? ==>
      exists i :: FirstFiledAt(files, code, i) && files[i] == FirstImageFor(files, code).value
    decreases |files|
  {
    if |files| > 0 {
      if FiledUnder(files[0], code) {
        assert FirstFiledAt(files, code, 0);
      } else if FirstImageFor(files, code).Some? {
        FirstImageForIsFirst(files[1..], code);
        var k :| FirstFiledAt(files[1..], code, k) && files[1..][k] == FirstImageFor(files, code).value;
        forall j | 0 <= j < k + 1
          ensures !FiledUnder(files[j], code)
        {
          if j > 0 { assert files[j] == files[1..][j - 1]; }
        }
        assert FirstFiledAt(files, code, k + 1);
      }
    }
  }

  lemma {:induction false} FirstImageForSnoc(files: seq<string>, f: string, code: string)
    ensures FirstImageFor(files + [f], code)
         == if FirstImageFor(files, code).Some? then FirstImageFor(files, code)
            else if IsProductImage(f) && CodeOf(f) == code then Some(f)
            else None
    decreases |files|
  {
    if |files| > 0 {
      assert (files + [f])[1..] == files[1..] + [f];
      FirstImageForSnoc(files[1..], f, code);
    } else {
      assert (files + [f])[1..] == [];
    }
  }

  /** `image_map`: each product code to the first image in `files` filed under it. */
  method BuildImageMap(files: seq<string>) returns (m: map<string, string>)
    ensures forall c :: c in m <==> FirstImageFor(files, c).Some?
    ensures forall c :: c in m ==> m[c] == FirstImageFor(files, c).value
    ensures forall c :: c in m ==> |c| >= 2 && c[..2] == "T-" && |c| <= |m[c]| && m[c][..|c|] == c
  {
    m := map[];
    var i := 0;
    while i < |files|
      invariant 0 <= i <= |files|
      invariant forall c :: c in m <==> FirstImageFor(files[..i], c).Some?
      invariant forall c :: c in m ==> m[c] == FirstImageFor(files[..i], c).value
    {
      var f := files[i];
      assert files[..i + 1] == files[..i] + [f];
      forall c
        ensures FirstImageFor(files[..i + 1], c)
             == if FirstImageFor(files[..i], c).Some? then FirstImageFor(files[..i], c)
                else if IsProductImage(f) && CodeOf(f) == c then Some(f)
                else None
      {
        FirstImageForSnoc(files[..i], f, c);
      }
      if IsProductImage(f) {
        var code := CodeOf(f);
        if code !in m {
          m := m[code := f];
        }
      }
      i := i + 1;
    }
    assert files[..i] == files;
    forall c | c in m
      ensures |c| >= 2 && c[..2] == "T-" && |c| <= |m[c]| && m[c][..|c|] == c
    {
      KeyOfImage(m[c], c);
    }
  }

  /** A product image's code starts with `T-` and begins the image's name. */
  lemma KeyOfImage(f: string, c: string)
    requires FiledUnder(f, c)
    ensures |c| >= 2 && c[..2] == "T-" && |c| <= |f| && f[..|c|] == c
  {
    assert f[0] == 'T' && f[1] == '-';
  }

  /** One record after the update: only its image name may change. */
  function Relink(t: Item, m: map<string, string>): (r: Item)
    ensures r.(imageFilename := t.imageFilename) == t
    ensures t.productCode !in m ==> r == t
    ensures t.productCode in m ==> r.imageFilename == m[t.productCode]
  {
    if t.productCode in m then t.(imageFilename := m[t.productCode]) else t
  }

  /** The update loop over all records. */
  function RelinkAll(tricks: seq<Item>, m: map<string, string>): (r: seq<Item>)
    ensures |r| == |tricks|
    ensures forall i :: 0 <= i < |r| ==> r[i] == Relink(tricks[i], m)
    decreases |tricks|
  {
    if |tricks| == 0 then [] else [Relink(tricks[0], m)] + RelinkAll(tricks[1..], m)
  }

  /** Updating with the same map a second time changes nothing. */
  lemma RelinkAllIdempotent(tricks: seq<Item>, m: map<string, string>)
    ensures RelinkAll(RelinkAll(tricks, m), m) == RelinkAll(tricks, m)
  {
    var once := RelinkAll(tricks, m);
    var twice := RelinkAll(once, m);
    forall i | 0 <= i < |tricks|
      ensures twice[i] == once[i]
    {
    }
  }

  /**
   * The whole script: build the map from the directory listing, then update every record.
   * Records keep their number, order and every field but the image name; a record gets the
   * first product image filed under its code, and keeps its image name when there is none.
   */
  method FixImages(tricks: seq<Item>, files: seq<string>) returns (imageMap: map<string, string>, updated: seq<Item>)
    ensures forall c :: c in imageMap <==> FirstImageFor(files, c).Some?
    ensures forall c :: c in imageMap ==> imageMap[c] == FirstImageFor(files, c).value
    ensures updated == RelinkAll(tricks, imageMap)
    ensures |updated| == |tricks|
    ensures forall i :: 0 <= i < |tricks| ==>
      && updated[i].(imageFilename := tricks[i].imageFilename) == tricks[i]
      && updated[i].imageFilename == match FirstImageFor(files, tricks[i].productCode)
           case Some(f) => f
           case None => tricks[i].imageFilename
  {
    imageMap := BuildImageMap(files);
    updated := UpdateRecords(tricks, imageMap);
    RelinkAllTakesFirstImages(tricks, files, imageMap);
  }

  /** The update loop: each record relinked through `m`, in order. */
  method UpdateRecords(tricks: seq<Item>, m: map<string, string>) returns (updated: seq<Item>)
    ensures updated == RelinkAll(tricks, m)
  {
    updated := [];
    var i := 0;
    while i < |tricks|
      invariant 0 <= i <= |tricks|
      invariant |updated| == i
      invariant forall j :: 0 <= j < i ==> updated[j] == Relink(tricks[j], m)
    {
      var t := tricks[i];
      if t.productCode in m {
        t := t.(imageFilename := m[t.productCode]);
      }
      updated := updated + [t];
      i := i + 1;
    }
  }

  /** With the map the script builds, every record takes the first image filed under its code, if any. */
  lemma RelinkAllTakesFirstImages(tricks: seq<Item>, files: seq<string>, m: map<string, string>)
    requires forall c :: c in m <==> FirstImageFor(files, c).Some?
    requires forall c :: c in m ==> m[c] == FirstImageFor(files, c).value
    ensures forall i :: 0 <= i < |tricks| ==>
      && RelinkAll(tricks, m)[i].(imageFilename := tricks[i].imageFilename) == tricks[i]
      && RelinkAll(tricks, m)[i].imageFilename == match FirstImageFor(files, tricks[i].productCode)
           case Some(f) => f
           case None => tricks[i].imageFilename
  {
  }
}

/** The logical database: pages below a page count, and transactions that replace some and add others. */
module Store {
  import opened Bytes
  import opened Pages
  import opened DataFile
  import opened Recovery
  import FileHeader

  /** Page 0 is carried along: it is always the header naming the count. */
  datatype Db = Db(count: U64, pages: Images)

  ghost predicate ValidDb(d: Db) {
    && d.count >= 1
    && (forall k: PageId :: k in d.pages <==> k < d.count)
    && d.pages[0] == FileHeader.Encode(d.count)
    && (forall k: PageId :: 0 < k < d.count ==> Verified(d.pages[k], k))
  }

  function Fresh(): Db { Db(1, map[0 := FileHeader.Encode(1)]) }

  lemma FreshIsValid()
    ensures ValidDb(Fresh())
  {
    hide FileHeader.Encode, Verified;
  }

  /** A commit's images in log order, and the page count it leaves. */
  datatype Txn = Txn(count: U64, images: seq<Image>)

  function Effect(t: Txn): Images { AddImages(map[], t.images) }

  /** What every commit that reaches the log satisfies. */
  ghost predicate ValidTxn(d: Db, t: Txn) {
    && t.count >= d.count
    && (forall i :: 0 <= i < |t.images| ==> t.images[i].id < t.count && ValidImage(t.images[i].id, t.images[i].page))
    && (forall i :: 0 <= i < |t.images| && t.images[i].id == 0 ==> t.images[i].page == FileHeader.Encode(t.count))
    && (t.count > d.count ==> 0 in Effect(t))
    && (forall k: PageId :: d.count <= k < t.count ==> k in Effect(t))
  }

  function Apply(d: Db, t: Txn): Db { Db(t.count, AddImages(d.pages, t.images)) }

  lemma {:induction false} AddImagesIsUnion(m: Images, images: seq<Image>)
    ensures AddImages(m, images) == m + AddImages(map[], images)
    decreases |images|
  {
    if images != [] {
      AddImagesIsUnion(m, images[..|images| - 1]);
    }
  }

  /** Every page of the effect is some image of the transaction. */
  lemma {:induction false} EffectIsImage(images: seq<Image>)
    ensures forall k :: k in AddImages(map[], images) ==>
      exists i :: 0 <= i < |images| && images[i].id == k && images[i].page == AddImages(map[], images)[k]
    ensures forall i :: 0 <= i < |images| ==> images[i].id in AddImages(map[], images)
    decreases |images|
  {
    if images != [] {
      var n := |images| - 1;
      EffectIsImage(images[..n]);
      forall k | k in AddImages(map[], images)
        ensures exists i :: 0 <= i < |images| && images[i].id == k && images[i].page == AddImages(map[], images)[k]
      {
        if k == images[n].id {
          assert images[n].id == k;
        } else {
          var i :| 0 <= i < n && images[..n][i].id == k && images[..n][i].page == AddImages(map[], images[..n])[k];
          assert images[i].id == k;
        }
      }
      forall i | 0 <= i < |images|
        ensures images[i].id in AddImages(map[], images)
      {
        if i < n {
          assert images[..n][i] == images[i];
        }
      }
    }
  }

  lemma EffectValid(d: Db, t: Txn, k: PageId)
    requires ValidTxn(d, t) && k in Effect(t)
    ensures k < t.count && ValidImage(k, Effect(t)[k])
    ensures k == 0 ==> Effect(t)[k] == FileHeader.Encode(t.count)
  {
    hide ValidImage;
    EffectIsImage(t.images);
    var i :| 0 <= i < |t.images| && t.images[i].id == k && t.images[i].page == Effect(t)[k];
  }

  /** Committing keeps the database valid. */
  lemma ApplyIsValid(d: Db, t: Txn)
    requires ValidDb(d) && ValidTxn(d, t)
    ensures ValidDb(Apply(d, t))
  {
    hide Verified, FileHeader.Encode, FileHeader.Decode, AddImages;
    var e := Apply(d, t);
    AddImagesIsUnion(d.pages, t.images);
    assert e.pages == d.pages + Effect(t);
    forall k: PageId
      ensures k in e.pages <==> k < e.count
    {
      if k in Effect(t) {
        EffectValid(d, t, k);
      }
    }
    forall k: PageId | 0 < k < e.count
      ensures Verified(e.pages[k], k)
    {
      if k in Effect(t) {
        EffectValid(d, t, k);
      }
    }
    if 0 in Effect(t) {
      EffectValid(d, t, 0);
    }
  }

  lemma ApplyGrows(d: Db, t: Txn)
    requires ValidTxn(d, t)
    ensures Apply(d, t).count >= d.count
  {
  }

  // ----- the database in a file

  /** Every page of the database, header included, stands in the file. */
  ghost predicate FileHolds(f: File, d: Db) {
    forall k: PageId :: k in d.pages ==> Holds(f, k, d.pages[k])
  }

  /** A file holding a database opens with its count and yields every page. */
  lemma FileHoldsOpens(f: File, d: Db)
    requires ValidDb(d) && FileHolds(f, d)
    ensures Open(f) == Opened(d.count)
    ensures forall k: PageId :: 0 < k < d.count ==> ReadPage(f, d.count, k) == Read(d.pages[k])
  {
    hide Verified, Open, ReadPage, FileHeader.Encode;
    assert Holds(f, 0, d.pages[0]);
    var last: PageId := d.count - 1;
    assert Holds(f, last, d.pages[last]);
    OpenOfHeader(f, d.count);
    forall k: PageId | 0 < k < d.count
      ensures ReadPage(f, d.count, k) == Read(d.pages[k])
    {
      assert Holds(f, k, d.pages[k]);
      ReadBack(f, d.count, k, d.pages[k]);
    }
  }
}

/**
 Which documents a build indexes (internal/index/builder.go): the last versions,
 numbered anew by an int32 once a version was superseded.
 */
module IndexedDocs {
  import opened Bits
  import opened BuiltIndex

  /** How many documents an int32 can number. */
  const INT32_LIMIT: nat := 0x8000_0000

  /** int32(u). */
  function Int32(u: nat): (i: int)
    requires u < 0x1_0000_0000
    ensures i >= 0 <==> u < INT32_LIMIT
    ensures i >= 0 ==> i == u
  {
    if u < INT32_LIMIT then u else u - 0x1_0000_0000
  }

  function Emptied(d: Doc): Doc { d.(tfs := map[]) }

  /** Documents whose numbers an int32 does not hold are left without postings. */
  ghost function Cut(docs: seq<Doc>): (s: seq<Doc>)
    ensures |s| == |docs| && forall i :: 0 <= i < |docs| ==> s[i] == if i < INT32_LIMIT then docs[i] else Emptied(docs[i])
  {
    seq(|docs|, i requires 0 <= i < |docs| => if i < INT32_LIMIT then docs[i] else Emptied(docs[i]))
  }

  /** What a build indexes when these versions were added. */
  ghost function Indexed(docs: seq<Doc>): seq<Doc> {
    if DistinctIDs(docs) then docs else Cut(LastVersions(docs))
  }

  /** No version was superseded, or no document beyond the int32 numbers has a term. */
  ghost predicate NothingCut(docs: seq<Doc>) {
    DistinctIDs(docs) || forall d :: INT32_LIMIT <= d < |LastVersions(docs)| ==> LastVersions(docs)[d].tfs == map[]
  }

  lemma DistinctAreLast(docs: seq<Doc>)
    requires DistinctIDs(docs)
    ensures LastVersions(docs) == docs
  {
    AllLast(docs, |docs|);
    assert docs[..|docs|] == docs;
  }

  /** The build indexes the last versions exactly when nothing is cut. */
  lemma IndexedIsLast(docs: seq<Doc>)
    ensures Indexed(docs) == LastVersions(docs) <==> NothingCut(docs)
  {
    hide DistinctIDs, Selected;
    if DistinctIDs(docs) { DistinctAreLast(docs); }
    var lv := LastVersions(docs);
    forall d | INT32_LIMIT <= d < |lv| ensures Cut(lv)[d] == lv[d] <==> lv[d].tfs == map[] {
      assert lv[d].tfs == map[] ==> Emptied(lv[d]) == lv[d];
    }
    if forall d :: INT32_LIMIT <= d < |lv| ==> lv[d].tfs == map[] {
      assert Cut(lv) == lv;
    }
  }

  /** Fewer documents than an int32 can number are never cut. */
  lemma FewAreKept(docs: seq<Doc>)
    requires |LastVersions(docs)| <= 0x8000_0000
    ensures NothingCut(docs) && Indexed(docs) == LastVersions(docs)
  {
    hide DistinctIDs, Selected;
    IndexedIsLast(docs);
  }

  /** Numbers, IDs and lengths are those of the last versions in any case. */
  lemma IndexedTable(docs: seq<Doc>)
    ensures |Indexed(docs)| == |LastVersions(docs)| && DistinctIDs(Indexed(docs))
    ensures forall d :: 0 <= d < |LastVersions(docs)| ==>
              Indexed(docs)[d].docID == LastVersions(docs)[d].docID && Indexed(docs)[d].len == LastVersions(docs)[d].len
  {
    hide Selected;
    if DistinctIDs(docs) { DistinctAreLast(docs); }
    LastDistinct(docs);
  }

  lemma SmallIndexed(docs: seq<Doc>)
    requires Small(LastVersions(docs))
    ensures Small(Indexed(docs))
  {
    hide Selected, DistinctIDs;
    if DistinctIDs(docs) { DistinctAreLast(docs); }
  }

  // ----- a session that is cut

  lemma {:induction false} SelectedAfterFirst(d: Doc, rest: seq<Doc>, n: nat)
    requires DistinctIDs(rest) && rest != [] && rest[0].docID == d.docID && n <= |rest|
    ensures Selected([d] + rest, n + 1) == rest[..n]
  {
    var docs := [d] + rest;
    if n == 0 {
      assert docs[1].docID == docs[0].docID;
      assert !IsLast(docs, 0);
      assert Selected(docs, 0) == [];
    } else {
      SelectedAfterFirst(d, rest, n - 1);
      assert docs[n] == rest[n - 1];
      assert IsLast(docs, n);
      assert rest[..n] == rest[..n - 1] + [rest[n - 1]];
    }
  }

  /** Document i: four bytes for a name, and one token. */
  function Numbered(i: nat): Doc { Doc(ToLE(i, 4), map[[120] := 1], 1) }

  /** One document added twice, and 2^31 others after it. */
  function TooMany(): seq<Doc> {
    [Numbered(0)] + seq(INT32_LIMIT + 1, i requires 0 <= i => Numbered(i))
  }

  /** The last of these documents is live and has a term, but its number does not fit. */
  lemma TooManyAreCut()
    ensures !NothingCut(TooMany()) && |TooMany()| == 0x8000_0002
  {
    hide ToLE, NothingCut, Selected;
    var rest := seq(INT32_LIMIT + 1, i requires 0 <= i => Numbered(i));
    forall i, j | 0 <= i < j < |rest| ensures rest[i].docID != rest[j].docID {
      Pow2Values();
      FieldBack(i, 4);
      FieldBack(j, 4);
    }
    SelectedAfterFirst(Numbered(0), rest, |rest|);
    assert TooMany() == [Numbered(0)] + rest && rest[..|rest|] == rest;
    assert [120] in rest[INT32_LIMIT].tfs;
    IsCut(TooMany(), rest);
  }

  lemma IsCut(docs: seq<Doc>, rest: seq<Doc>)
    requires LastVersions(docs) == rest && |rest| == INT32_LIMIT + 1 && rest[INT32_LIMIT].tfs != map[]
    requires |docs| > 1 && docs[0].docID == docs[1].docID
    ensures !NothingCut(docs)
  {
    hide Selected;
  }
}

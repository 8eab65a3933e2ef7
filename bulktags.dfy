/**
 * The bulk tag dialog: the preview of what each selected row would get, and
 * applying the operation to the selection.
 */
module BulkTags {
  import opened Wrappers
  import opened Text
  import opened Tags
  import opened Store
  import opened LibraryView
  import opened Records

  /** What applying the bulk operation has done so far. */
  datatype BulkTally = BulkTally(songs: seq<Song>, updated: nat, errors: seq<string>)

  /** The tag string the bulk editor writes for each selected row. */
  function Writes(items: seq<Row>, op: TagOp, typed: string): (w: seq<string>)
    ensures |w| == |items|
  {
    seq(|items|, k requires 0 <= k < |items| => BulkTagString(op, items[k].tags, typed))
  }

  /** One selected row: an exception is reported; otherwise its new tag string is written and counted. */
  function TagStep(t: BulkTally, item: Row, newTags: string, error: Option<string>): BulkTally {
    match error
    case Some(e) => t.(errors := t.errors + ["Error updating " + item.filename + ": " + e])
    case None => BulkTally(WithTags(t.songs, item.id, newTags), t.updated + 1, t.errors)
  }

  /**
   * The bulk operation over the selection, writing `writes[k]` for item `k`;
   * `failures` maps a selection position to the exception its update raised.
   */
  function TagAll(songs: seq<Song>, items: seq<Row>, writes: seq<string>, failures: map<nat, string>): BulkTally
    requires |writes| == |items|
    decreases |items|
  {
    if items == [] then BulkTally(songs, 0, [])
    else
      var k := |items| - 1;
      TagStep(TagAll(songs, items[..k], writes[..k], failures), items[k], writes[k],
              if k in failures then Some(failures[k]) else None)
  }

  /** Every selected row is either updated and counted or reported, and the table keeps its rows. */
  lemma {:induction false} TagAllAccounts(songs: seq<Song>, items: seq<Row>, writes: seq<string>, failures: map<nat, string>)
    requires |writes| == |items|
    ensures var t := TagAll(songs, items, writes, failures);
      t.updated + |t.errors| == |items| && |t.songs| == |songs|
    decreases |items|
  {
    if items != [] {
      TagAllAccounts(songs, items[..|items| - 1], writes[..|items| - 1], failures);
    }
  }

  /** The count is of the rows whose update raised nothing. */
  lemma {:induction false} TagAllCount(songs: seq<Song>, items: seq<Row>, writes: seq<string>, failures: map<nat, string>)
    requires |writes| == |items|
    ensures TagAll(songs, items, writes, failures).updated == |set k | 0 <= k < |items| && k !in failures|
    decreases |items|
  {
    if items != [] {
      var k := |items| - 1;
      TagAllCount(songs, items[..k], writes[..k], failures);
      var before := set j | 0 <= j < k && j !in failures;
      var after := set j | 0 <= j < |items| && j !in failures;
      if k in failures {
        assert after == before;
      } else {
        assert k !in before;
        assert after == before + {k};
      }
    }
  }

  /** No two selected rows name the same track. */
  predicate DistinctIds(items: seq<Row>) {
    forall a, b :: 0 <= a < b < |items| ==> items[a].id != items[b].id
  }

  /** Without its last row a selection is still distinct, and no earlier row names the last row's track. */
  lemma DistinctInit(items: seq<Row>)
    requires items != [] && DistinctIds(items)
    ensures DistinctIds(items[..|items| - 1])
    ensures forall j :: 0 <= j < |items| - 1 ==> items[j].id != items[|items| - 1].id
  {
    var init := items[..|items| - 1];
    forall a, b | 0 <= a < b < |init| ensures init[a].id != init[b].id {
      assert init[a] == items[a] && init[b] == items[b];
    }
  }

  /**
   * Row by row, when the selection names each track at most once: a row that
   * no successfully updated item names keeps everything; otherwise it gets
   * that item's new tag string and keeps the rest.
   */
  lemma {:induction false} TagAllRow(songs: seq<Song>, items: seq<Row>, writes: seq<string>,
                                     failures: map<nat, string>, i: nat)
    requires |writes| == |items| && i < |songs|
    requires DistinctIds(items)
    ensures var r := TagAll(songs, items, writes, failures).songs;
      && |r| == |songs|
      && ((forall k :: 0 <= k < |items| && items[k].id == songs[i].id ==> k in failures) ==> r[i] == songs[i])
      && (forall k :: 0 <= k < |items| && k !in failures && items[k].id == songs[i].id ==>
            r[i] == songs[i].(tags := writes[k]))
    decreases |items|
  {
    if items != [] {
      var k := |items| - 1;
      var init, w := items[..k], writes[..k];
      DistinctInit(items);
      TagAllRow(songs, init, w, failures, i);
      TagAllAccounts(songs, init, w, failures);
      TagStepRow(TagAll(songs, init, w, failures), items[k], writes[k],
                 if k in failures then Some(failures[k]) else None, i);
      forall j | 0 <= j < k ensures init[j] == items[j] && w[j] == writes[j] { }
    }
  }

  /** One step of the bulk operation on row `i`: only an update without error of that row's id changes it, and only its tags. */
  lemma TagStepRow(t: BulkTally, item: Row, newTags: string, error: Option<string>, i: nat)
    requires i < |t.songs|
    ensures var r := TagStep(t, item, newTags, error).songs;
      && |r| == |t.songs|
      && (error.Some? || t.songs[i].id != item.id ==> r[i] == t.songs[i])
      && (error.None? && t.songs[i].id == item.id ==> r[i] == t.songs[i].(tags := newTags))
  {
  }

  /** The preview: one line per selected row with the tags it would get. */
  function PreviewLines(items: seq<Row>, op: TagOp, typed: string): (lines: seq<string>)
    ensures |lines| == |items|
  {
    seq(|items|, k requires 0 <= k < |items| => PreviewLine(items[k].filename, FinalTags(op, items[k].tags, typed)))
  }

  /** The preview shows, for every row, exactly the tags that reading back its stored string gives. */
  lemma PreviewShowsStored(items: seq<Row>, op: TagOp, typed: string)
    ensures forall k :: 0 <= k < |items| ==>
      PreviewLines(items, op, typed)[k]
        == PreviewLine(items[k].filename, ParseTags(BulkTagString(op, items[k].tags, typed)))
  {
    forall k | 0 <= k < |items|
      ensures PreviewLines(items, op, typed)[k]
           == PreviewLine(items[k].filename, ParseTags(BulkTagString(op, items[k].tags, typed)))
    {
      BulkTagStringParses(op, items[k].tags, typed);
      FinalTagsUnfold(op, items[k].tags, typed);
    }
  }

  /** The closing message of the bulk tag dialog. */
  function BulkMessage(updated: nat, errors: seq<string>): (r: string)
    ensures errors == [] ==> r == "Successfully updated tags for " + IntToString(updated) + " songs"
    ensures errors != [] ==> StartsWith(r, "Updated " + IntToString(updated) + " songs with "
                                           + IntToString(|errors|) + " errors:\n\n")
  {
    if errors == [] then "Successfully updated tags for " + IntToString(updated) + " songs"
    else
      var head := "Updated " + IntToString(updated) + " songs with " + IntToString(|errors|) + " errors:\n\n";
      var r := head + ErrorList(errors);
      assert r[..|head|] == head;
      r
  }

  /** `TagAll` over one more selected row is one more `TagStep`. */
  lemma TagAllExtend(songs: seq<Song>, items: seq<Row>, writes: seq<string>, failures: map<nat, string>, idx: nat)
    requires |writes| == |items| && idx < |items|
    ensures TagAll(songs, items[..idx + 1], writes[..idx + 1], failures)
         == TagStep(TagAll(songs, items[..idx], writes[..idx], failures), items[idx], writes[idx],
                    if idx in failures then Some(failures[idx]) else None)
  {
    assert items[..idx + 1][..idx] == items[..idx];
    assert writes[..idx + 1][..idx] == writes[..idx];
  }

  /** The loop of `apply_bulk_tags`: writes `writes[k]` to each selected row `k` whose update does not raise. */
  method WriteTags(lib: Library, items: seq<Row>, writes: seq<string>, failures: map<nat, string>)
    returns (updated: nat, errors: seq<string>)
    requires lib.Valid() && |writes| == |items|
    modifies lib
    ensures lib.Valid() && lib.nextId == old(lib.nextId) && lib.committed == old(lib.committed)
    ensures TagAll(old(lib.songs), items, writes, failures) == BulkTally(lib.songs, updated, errors)
  {
    ghost var start := lib.songs;
    updated := 0;
    errors := [];
    var idx := 0;
    while idx < |items|
      invariant 0 <= idx <= |items|
      invariant lib.Valid() && lib.nextId == old(lib.nextId) && lib.committed == old(lib.committed)
      invariant TagAll(start, items[..idx], writes[..idx], failures) == BulkTally(lib.songs, updated, errors)
      decreases |items| - idx
    {
      var item := items[idx];
      TagAllExtend(start, items, writes, failures, idx);
      if idx in failures {
        errors := errors + ["Error updating " + item.filename + ": " + failures[idx]];
      } else {
        lib.UpdateTags(item.id, writes[idx]);
        updated := updated + 1;
      }
      idx := idx + 1;
    }
    assert items[..idx] == items && writes[..idx] == writes;
  }

  /**
   * `apply_bulk_tags`: writes each selected row's new tag string, counts the
   * rows written, collects the errors, and commits only when a row was written.
   */
  method ApplyBulkTags(lib: Library, items: seq<Row>, op: TagOp, typed: string, failures: map<nat, string>)
    returns (updated: nat, message: string)
    requires lib.Valid()
    modifies lib
    ensures lib.Valid() && lib.nextId == old(lib.nextId)
    ensures var t := TagAll(old(lib.songs), items, Writes(items, op, typed), failures);
      && lib.songs == t.songs && updated == t.updated
      && message == BulkMessage(t.updated, t.errors)
    ensures lib.committed == if updated > 0 then lib.songs else old(lib.committed)
  {
    var writes := Writes(items, op, typed);
    var errors;
    updated, errors := WriteTags(lib, items, writes, failures);
    if updated > 0 {
      lib.Commit();
    }
    message := BulkMessage(updated, errors);
  }
}

/**
 * Clients of the notes table that replay the service's own test cases:
 * each starts from a freshly seeded table, as the tests' set-up does, and
 * its postconditions are the outcomes those tests expect, derived from the
 * handlers' contracts alone.
 */
module Scenarios {
  import opened Wrappers
  import opened Responses
  import opened NotesApi

  /** A request body that carries both a title and a content. */
  function EditData(): JsonObject {
    map["title" := "edit test note", "content" := "edit note from unit test"]
  }

  /** After seeding, the listing holds the two seeds, newest first. */
  method SeededListing() returns (list: Response)
    ensures list.status == 200
    ensures list.body == NoteList([Seeds[1], Seeds[0]])
  {
    var db := new NotesDb();
    db.DbInit();
    TwoNoteListing(db, 2, 1);
    list := db.GetNotes(true);
  }

  /** Note 1 is the first seed; note 12 does not exist. */
  method GetSeededNote() returns (found: Response, missing: Response)
    ensures found == Response(200, OneNote(Note("pertama", "ini content dari note pertama")))
    ensures missing.status == 404 && IsError(missing)
  {
    var db := new NotesDb();
    db.DbInit();
    found := db.GetNote(true, 1);
    missing := db.GetNote(true, 12);
  }

  /**
   * A JSON body with a title creates a note and the listing grows to three;
   * the same request without a JSON body is a 400 and the listing stays at
   * three.
   */
  method AddNote() returns (created: Response, list: Response, rejected: Response, after: Response)
    ensures created == Response(201, OneNote(Note("edit test note", "edit note from unit test")))
    ensures list.status == 200 && list.body.NoteList? && |list.body.notes| == 3
    ensures rejected.status == 400 && IsError(rejected)
    ensures after.status == 200 && after.body.NoteList? && |after.body.notes| == 3
  {
    var db := new NotesDb();
    db.DbInit();
    assert |db.notes| == 2 by {
      assert db.notes.Keys == {1, 2};
    }
    created := db.CreateNote(true, Some(EditData()));
    assert |db.notes| == 3;
    list := db.GetNotes(true);
    rejected := db.CreateNote(true, None);
    after := db.GetNotes(true);
  }

  /** A title without content is stored with empty content. */
  method AddNoteWithoutContent() returns (created: Response, fetched: Response)
    ensures created == Response(201, OneNote(Note("tanpa isi", "")))
    ensures fetched == Response(200, OneNote(Note("tanpa isi", "")))
  {
    var db := new NotesDb();
    db.DbInit();
    created := db.CreateNote(true, Some(map["title" := "tanpa isi"]));
    fetched := db.GetNote(true, 3);
  }

  /**
   * PUT on note 2 replaces it and a later GET returns what was sent; PUT on
   * the absent note 23 is a 404, and so is PUT on it with no body at all.
   */
  method EditNote() returns (edited: Response, fetched: Response, missing: Response, missingNoBody: Response)
    ensures edited == Response(200, OneNote(Note("edit test note", "edit note from unit test")))
    ensures fetched == edited
    ensures missing.status == 404 && IsError(missing)
    ensures missingNoBody.status == 404
  {
    var db := new NotesDb();
    db.DbInit();
    edited := db.UpdateNote(true, 2, Some(EditData()));
    fetched := db.GetNote(true, 2);
    missing := db.UpdateNote(true, 23, Some(EditData()));
    missingNoBody := db.UpdateNote(true, 23, None);
  }

  /**
   * Deleting note 2 answers `{"result": true}`, the listing is left with the
   * first seed only, a GET on note 2 is a 404 and so is a second delete.
   */
  method DeleteNote() returns (deleted: Response, list: Response, fetched: Response, again: Response)
    ensures deleted == Response(200, Deleted(true))
    ensures list.status == 200 && list.body == NoteList([Seeds[0]])
    ensures fetched.status == 404 && IsError(fetched)
    ensures again.status == 404
  {
    var db := new NotesDb();
    db.DbInit();
    deleted := db.DeleteNote(true, 2);
    assert db.notes == map[1 := Seeds[0]];
    assert db.OrderedIds() == [1] by {
      assert |db.notes| == 1;
    }
    list := db.GetNotes(true);
    fetched := db.GetNote(true, 2);
    again := db.DeleteNote(true, 2);
  }

  /**
   * Ids are never reused while the table exists: after note 2 is deleted, a
   * new note gets id 3, id 2 stays a 404, and the listing is the new note
   * followed by the first seed.
   */
  method IdsNotReused() returns (created: Response, fetched: Response, gone: Response, list: Response)
    ensures created == Response(201, OneNote(Note("x", "")))
    ensures fetched == Response(200, OneNote(Note("x", "")))
    ensures gone.status == 404 && IsError(gone)
    ensures list.status == 200 && list.body == NoteList([Note("x", ""), Seeds[0]])
  {
    var db := new NotesDb();
    db.DbInit();
    var deleted := db.DeleteNote(true, 2);
    created := db.CreateNote(true, Some(map["title" := "x"]));
    assert db.notes.Keys == {3, 1};
    fetched := db.GetNote(true, 3);
    gone := db.GetNote(true, 2);
    TwoNoteListing(db, 3, 1);
    list := db.GetNotes(true);
  }

  /** A request that fails authentication gets the error body and changes nothing. */
  method Unauthenticated() returns (list: Response, created: Response, after: Response)
    ensures list == created == Response(200, Error("unauthorized access"))
    ensures after.status == 200 && after.body.NoteList? && |after.body.notes| == 2
  {
    var db := new NotesDb();
    db.DbInit();
    list := db.GetNotes(false);
    created := db.CreateNote(false, Some(EditData()));
    after := db.GetNotes(true);
  }
}

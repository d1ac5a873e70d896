/**
 * The notes service: the notes table (an id-keyed map plus the
 * AUTOINCREMENT counter) and the request handlers over it. Each handler
 * takes whether the request passed the Basic-auth gate, the route's note id
 * where it has one, and the parsed JSON body where it reads one, and yields
 * the response the service sends.
 */
module NotesApi {
  import opened Wrappers
  import opened Responses
  import Seqs

  /** The two rows `db_init` seeds, in insertion order. */
  const Seeds: seq<Note> := [
    Note("pertama", "ini content dari note pertama"),
    Note("kedua", "ini content dari note kedua")
  ]

  /** `ids` lists its elements in strictly decreasing order. */
  predicate StrictlyDescending(ids: seq<nat>) {
    forall i, j :: 0 <= i < j < |ids| ==> ids[i] > ids[j]
  }

  /**
   * The ids of `m` in the range 1..k, largest first: the row order of
   * `ORDER BY id DESC` over a table whose ids are at most k.
   */
  function IdsDescending(m: map<nat, Note>, k: nat): (ids: seq<nat>)
    ensures forall i :: 0 <= i < |ids| ==> ids[i] in m && 1 <= ids[i] <= k
    ensures forall id :: id in m && 1 <= id <= k ==> id in ids
    ensures StrictlyDescending(ids)
  {
    if k == 0 then []
    else if k in m then [k] + IdsDescending(m, k - 1)
    else IdsDescending(m, k - 1)
  }

  /** A strictly decreasing sequence has no repeated element. */
  lemma DescendingIsDistinct(ids: seq<nat>)
    requires StrictlyDescending(ids)
    ensures Seqs.Distinct(ids)
  {
  }

  /**
   * A set of ids has only one strictly decreasing enumeration: any two
   * newest-first listings of the same ids are the same listing.
   */
  lemma {:induction false} DescendingUnique(a: seq<nat>, b: seq<nat>)
    requires StrictlyDescending(a) && StrictlyDescending(b)
    requires Seqs.Elems(a) == Seqs.Elems(b)
    ensures a == b
  {
    DescendingIsDistinct(a);
    DescendingIsDistinct(b);
    Seqs.DistinctCard(a);
    Seqs.DistinctCard(b);
    if a != [] {
      assert a[0] in Seqs.Elems(b) && b[0] in Seqs.Elems(a);
      assert a[0] == b[0];
      assert Seqs.Elems(a[1..]) == Seqs.Elems(a) - {a[0]} by {
        assert a == [a[0]] + a[1..];
      }
      assert Seqs.Elems(b[1..]) == Seqs.Elems(b) - {b[0]} by {
        assert b == [b[0]] + b[1..];
      }
      DescendingUnique(a[1..], b[1..]);
      assert a == [a[0]] + a[1..] && b == [b[0]] + b[1..];
    }
  }

  /** The rows of `m` under `ids`, in the order of `ids`. */
  function Select(m: map<nat, Note>, ids: seq<nat>): (r: seq<Note>)
    requires forall i :: 0 <= i < |ids| ==> ids[i] in m
    ensures |r| == |ids|
  {
    seq(|ids|, i requires 0 <= i < |ids| => m[ids[i]])
  }

  /**
   * The request body `create_note` accepts: truthy and carrying `title`.
   * The emptiness test adds nothing to the key test.
   */
  predicate CreateAccepts(json: Option<JsonObject>)
    ensures CreateAccepts(json) <==> json.Some? && "title" in json.value
  {
    Truthy(json) && "title" in json.value
  }

  /**
   * The request body `update_note` accepts: truthy, with `title` and
   * `content`. The emptiness test adds nothing to the key tests.
   */
  predicate UpdateAccepts(json: Option<JsonObject>)
    ensures UpdateAccepts(json) <==> json.Some? && "title" in json.value && "content" in json.value
  {
    Truthy(json) && "title" in json.value && "content" in json.value
  }

  /** `request.json.get('content', '')`. */
  function ContentOr(obj: JsonObject): (r: string)
    ensures "content" in obj ==> r == obj["content"]
    ensures "content" !in obj ==> r == ""
  {
    if "content" in obj then obj["content"] else ""
  }

  /** The notes table. */
  class NotesDb {
    /** The rows, by id. */
    var notes: map<nat, Note>
    /** The id the next insert receives: one more than the largest ever given. */
    var nextId: nat

    /** Ids start at 1 and every stored id was handed out before `nextId`. */
    ghost predicate Valid()
      reads this
    {
      1 <= nextId && forall id :: id in notes ==> 1 <= id < nextId
    }

    /** A freshly created, empty `notes` table. */
    constructor ()
      ensures Valid() && notes == map[] && nextId == 1
    {
      notes := map[];
      nextId := 1;
    }

    /**
     * `INSERT INTO notes (title, content) VALUES (?, ?)` with commit: the row
     * gets a fresh id larger than every id in the table.
     */
    method Insert(n: Note) returns (id: nat)
      requires Valid()
      modifies this
      ensures Valid()
      ensures id == old(nextId) && id !in old(notes)
      ensures forall k :: k in old(notes) ==> k < id
      ensures notes == old(notes)[id := n] && nextId == id + 1
      ensures |notes| == |old(notes)| + 1
    {
      id := nextId;
      notes := notes[id := n];
      nextId := nextId + 1;
    }

    /**
     * `db_init`: drops and recreates the table (which also restarts its
     * AUTOINCREMENT sequence) and inserts the two seed notes.
     */
    method DbInit()
      modifies this
      ensures Valid()
      ensures notes == map[1 := Seeds[0], 2 := Seeds[1]] && nextId == 3
    {
      notes := map[];
      nextId := 1;
      var first := Insert(Seeds[0]);
      var second := Insert(Seeds[1]);
    }

    /** `note_byid`: the row with this id, or None when there is none. */
    function NoteById(id: nat): (r: Option<Note>)
      reads this
      ensures r.Some? <==> id in notes
      ensures r.Some? ==> r.value == notes[id]
    {
      if id in notes then Some(notes[id]) else None
    }

    /** Every stored id exactly once, largest first. */
    function OrderedIds(): (ids: seq<nat>)
      reads this
      requires Valid()
      ensures |ids| == |notes|
      ensures forall i :: 0 <= i < |ids| ==> ids[i] in notes
      ensures forall id :: id in notes ==> id in ids
      ensures StrictlyDescending(ids)
    {
      var ids := IdsDescending(notes, nextId - 1);
      DescendingIsDistinct(ids);
      Seqs.DistinctCard(ids);
      assert Seqs.Elems(ids) == notes.Keys;
      ids
    }

    /**
     * `get_notes` (GET /api/notes): every stored note, newest (largest id)
     * first.
     */
    function GetNotes(authenticated: bool): (r: Response)
      reads this
      requires Valid()
      ensures !authenticated ==> r == Unauthorized()
      ensures authenticated ==> r.status == 200 && r.body.NoteList?
      ensures authenticated ==> |r.body.notes| == |notes|
      ensures authenticated ==> forall i :: 0 <= i < |r.body.notes| ==> r.body.notes[i] == notes[OrderedIds()[i]]
    {
      if !authenticated then Unauthorized()
      else
        var ids := OrderedIds();
        Response(200, NoteList(Select(notes, ids)))
    }

    /**
     * `get_note` (GET /api/notes/<id>). Here and in the other handlers,
     * `abort(code)` is answered by the handler registered for that code.
     */
    function GetNote(authenticated: bool, id: nat): (r: Response)
      reads this
      ensures !authenticated ==> r == Unauthorized()
      ensures authenticated && id !in notes ==> r == PageNotFound()
      ensures authenticated && id in notes ==> r == Response(200, OneNote(notes[id]))
    {
      if !authenticated then Unauthorized()
      else match NoteById(id)
        case None => HandleError(404).value
        case Some(n) => Response(200, OneNote(n))
    }

    /** `create_note` (POST /api/notes). */
    method CreateNote(authenticated: bool, json: Option<JsonObject>) returns (resp: Response)
      requires Valid()
      modifies this
      ensures Valid()
      ensures !authenticated ==> resp == Unauthorized()
      ensures authenticated && !CreateAccepts(json) ==> resp == BadRequest()
      ensures !(authenticated && CreateAccepts(json)) ==> notes == old(notes) && nextId == old(nextId)
      ensures authenticated && CreateAccepts(json) ==>
        var n := Note(json.value["title"], ContentOr(json.value));
        && resp == Response(201, OneNote(n))
        && old(nextId) !in old(notes)
        && (forall id :: id in old(notes) ==> id < old(nextId))
        && notes == old(notes)[old(nextId) := n]
        && nextId == old(nextId) + 1
        && |notes| == |old(notes)| + 1
        && GetNote(true, old(nextId)) == Response(200, OneNote(n))
    {
      if !authenticated {
        return Unauthorized();
      }
      if !Truthy(json) || "title" !in json.value {
        return HandleError(400).value;
      }
      var note := Note(json.value["title"], ContentOr(json.value));
      var id := Insert(note);
      resp := Response(201, OneNote(note));
    }

    /**
     * `update_note` (PUT /api/notes/<id>): the existence check comes first,
     * so an absent id is a 404 whatever the body.
     */
    method UpdateNote(authenticated: bool, id: nat, json: Option<JsonObject>) returns (resp: Response)
      requires Valid()
      modifies this
      ensures Valid() && nextId == old(nextId)
      ensures !authenticated ==> resp == Unauthorized()
      ensures authenticated && id !in old(notes) ==> resp == PageNotFound()
      ensures authenticated && id in old(notes) && !UpdateAccepts(json) ==> resp == BadRequest()
      ensures !(authenticated && id in old(notes) && UpdateAccepts(json)) ==> notes == old(notes)
      ensures authenticated && id in old(notes) && UpdateAccepts(json) ==>
        var n := Note(json.value["title"], json.value["content"]);
        && resp == Response(200, OneNote(n))
        && notes == old(notes)[id := n]
      ensures resp.body.OneNote? ==> GetNote(true, id) == resp
    {
      if !authenticated {
        return Unauthorized();
      }
      var dbnote := NoteById(id);
      if dbnote.None? {
        return HandleError(404).value;
      }
      if !Truthy(json) {
        return HandleError(400).value;
      }
      if "title" !in json.value || "content" !in json.value {
        return HandleError(400).value;
      }
      var note := Note(json.value["title"], ContentOr(json.value));
      notes := notes[id := note];
      resp := Response(200, OneNote(note));
    }

    /**
     * `delete_note` (DELETE /api/notes/<id>): an absent id is a 404, so a
     * second delete of the same id is a 404 too.
     */
    method DeleteNote(authenticated: bool, id: nat) returns (resp: Response)
      requires Valid()
      modifies this
      ensures Valid() && nextId == old(nextId)
      ensures !authenticated ==> resp == Unauthorized() && notes == old(notes)
      ensures authenticated && id !in old(notes) ==> resp == PageNotFound() && notes == old(notes)
      ensures authenticated && id in old(notes) ==>
        && resp == Response(200, Deleted(true))
        && notes == old(notes) - {id}
        && |notes| == |old(notes)| - 1
      ensures authenticated ==> GetNote(true, id) == PageNotFound()
    {
      if !authenticated {
        return Unauthorized();
      }
      var dbnote := NoteById(id);
      if dbnote.None? {
        return HandleError(404).value;
      }
      notes := notes - {id};
      resp := Response(200, Deleted(true));
    }
  }

  /**
   * The listing agrees with lookup by id: an id is served by GET exactly
   * when it appears in the listing, and the listing's i-th entry is what
   * GET returns for the i-th largest id.
   */
  lemma ListingAgreesWithGet(db: NotesDb, id: nat)
    requires db.Valid()
    ensures db.GetNote(true, id).status == 200 <==> id in db.OrderedIds()
    ensures forall i :: 0 <= i < |db.OrderedIds()| ==>
      db.GetNote(true, db.OrderedIds()[i]) == Response(200, OneNote(db.GetNotes(true).body.notes[i]))
  {
  }

  /**
   * Any newest-first enumeration of the stored ids is the listing's order:
   * the ordering GET /api/notes uses is determined by the table alone.
   */
  lemma ListingOrderIsDescendingIds(db: NotesDb, ids: seq<nat>)
    requires db.Valid()
    requires StrictlyDescending(ids)
    requires forall i :: 0 <= i < |ids| ==> ids[i] in db.notes
    requires forall id :: id in db.notes ==> id in ids
    ensures ids == db.OrderedIds()
    ensures db.GetNotes(true).body.notes == Select(db.notes, ids)
  {
    var o := db.OrderedIds();
    assert Seqs.Elems(ids) == Seqs.Elems(o);
    DescendingUnique(ids, o);
  }

  /** A table of two notes lists the one with the larger id first. */
  lemma TwoNoteListing(db: NotesDb, hi: nat, lo: nat)
    requires db.Valid()
    requires db.notes.Keys == {hi, lo} && hi > lo
    ensures db.GetNotes(true).body == NoteList([db.notes[hi], db.notes[lo]])
  {
    assert |db.notes| == 2 by {
      assert |db.notes.Keys| == 2;
    }
    var ids := db.OrderedIds();
    assert ids[0] == hi && ids[1] == lo by {
      assert hi in ids && lo in ids;
      assert ids[0] > ids[1];
    }
    var listed := db.GetNotes(true).body.notes;
    assert |listed| == 2;
    assert listed[0] == db.notes[hi] && listed[1] == db.notes[lo];
    assert listed == [db.notes[hi], db.notes[lo]];
  }
}

/**
  The caregiver's daily notes on the dashboard page: a draft text, the list
  of saved notes (most recent first), and their copy in local storage that
  the next page load reads back.
 */
module CaregiverNotes {

  import opened Wrappers
  import opened Text
  import opened JsonStrings
  import opened Storage

  /** The storage key the notes are kept under. */
  const NotesKey: string := "caregiverNotes"

  /**
    The notes a page load finds in storage: the parsed list when the key
    holds a non-empty text that parses as an array of strings. None when the
    key is absent or empty (the load keeps its empty list), and also when
    the text does not parse.
   */
  function StoredNotes(items: map<string, string>): (r: Option<seq<string>>)
    ensures r.Some? ==> NotesKey in items && Parse(items[NotesKey]) == r
  {
    if NotesKey in items && items[NotesKey] != "" then Parse(items[NotesKey]) else None
  }

  /** Whatever list a save writes, the next load reads back the same list. */
  lemma SaveThenLoad(items: map<string, string>, notes: seq<string>)
    ensures StoredNotes(items[NotesKey := Stringify(notes)]) == Some(notes)
  {
    ParseStringify(notes);
  }

  class NotesPanel {

    /** The saved notes, the newest first. */
    var notes: seq<string>
    /** The text being typed. */
    var dailyNote: string
    const storage: LocalStorage

    /** The page's initial state: no notes and an empty draft. */
    constructor (storage: LocalStorage)
      ensures notes == [] && dailyNote == "" && this.storage == storage
    {
      notes := [];
      dailyNote := "";
      this.storage := storage;
    }

    /**
      The load step of the page's mount effect: a non-empty stored text is
      parsed and replaces the list; otherwise the list stays as it is. ok is
      false where the stored text does not parse and `JSON.parse` would throw.
     */
    method Load() returns (ok: bool)
      modifies this`notes
      ensures StoredNotes(storage.items).Some? ==> ok && notes == StoredNotes(storage.items).value
      ensures NotesKey !in storage.items || storage.items[NotesKey] == "" ==> ok && notes == old(notes)
      ensures !ok <==> NotesKey in storage.items && storage.items[NotesKey] != "" && Parse(storage.items[NotesKey]).None?
      ensures !ok ==> notes == old(notes)
    {
      var saved := storage.GetItem(NotesKey);
      ok := true;
      if saved.Some? && saved.value != "" {
        var parsed := Parse(saved.value);
        if parsed.Some? {
          notes := parsed.value;
        } else {
          ok := false;
        }
      }
    }

    /**
      `saveNote`: a draft that trims to nothing changes nothing. Otherwise
      the trimmed draft goes in front of the list, the whole new list is
      written to storage as JSON, and the draft is cleared.
     */
    method SaveNote()
      modifies this`notes, this`dailyNote, storage
      ensures Trim(old(dailyNote)) == "" ==>
        notes == old(notes) && dailyNote == old(dailyNote) && storage.items == old(storage.items)
      ensures Trim(old(dailyNote)) != "" ==>
        && notes == [Trim(old(dailyNote))] + old(notes)
        && storage.items == old(storage.items)[NotesKey := Stringify(notes)]
        && dailyNote == ""
      ensures Trim(old(dailyNote)) != "" ==> StoredNotes(storage.items) == Some(notes)
    {
      var draft := Trim(dailyNote);
      if draft != "" {
        var updated := [draft] + notes;
        notes := updated;
        storage.SetItem(NotesKey, Stringify(updated));
        dailyNote := "";
        SaveThenLoad(old(storage.items), updated);
      }
    }
  }

  /**
    The newest note is the trimmed draft, it is not blank, and the earlier
    notes follow it unchanged and in their order.
   */
  lemma PrependedNote(draft: string, earlier: seq<string>)
    requires Trim(draft) != ""
    ensures var updated := [Trim(draft)] + earlier;
      && |updated| == |earlier| + 1
      && updated[1..] == earlier
      && !AllSpace(updated[0])
      && Trim(updated[0]) == updated[0]
  {
    TrimEmptyIffAllSpace(draft);
    TrimIdempotent(draft);
    var t := Trim(draft);
    assert !IsSpace(t[0]);
  }
}

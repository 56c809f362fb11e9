/** The list editor both forms embed: a list of strings (equipment or
    certifications) and the draft typed into the input box beside it. */
module FormLists {
  import Text
  import Seqs

  datatype ListEditor = ListEditor(items: seq<string>, draft: string)

  /** The "add" button: when the draft is more than whitespace, its trimmed
      text is appended and the draft is cleared; otherwise nothing changes,
      the draft included. Duplicates are not rejected. */
  function Add(e: ListEditor): (r: ListEditor)
    ensures Text.IsBlank(e.draft) ==> r == e
    ensures !Text.IsBlank(e.draft) ==>
      && r.draft == ""
      && |r.items| == |e.items| + 1
      && r.items[..|e.items|] == e.items
      && r.items[|e.items|] == Text.Trim(e.draft)
    ensures !Text.IsBlank(e.draft) ==>
      var added := r.items[|e.items|];
      && |added| > 0
      && Text.IsTrimmed(added)
      && exists i :: Text.OccursAt(e.draft, added, i)
  {
    var t := Text.Trim(e.draft);
    if |t| > 0 then
      assert (e.items + [t])[..|e.items|] == e.items;
      ListEditor(e.items + [t], "")
    else
      e
  }

  /** An entry is clean when it is non-empty and has no surrounding whitespace. */
  predicate AllClean(items: seq<string>) {
    forall i | 0 <= i < |items| :: |items[i]| > 0 && Text.IsTrimmed(items[i])
  }

  /** Adding keeps a list of clean entries clean. */
  lemma AddKeepsClean(e: ListEditor)
    requires AllClean(e.items)
    ensures AllClean(Add(e).items)
  {
    var r := Add(e);
    if !Text.IsBlank(e.draft) {
      forall i | 0 <= i < |r.items|
        ensures |r.items[i]| > 0 && Text.IsTrimmed(r.items[i])
      {
        if i < |e.items| {
          assert r.items[i] == r.items[..|e.items|][i];
        }
      }
    }
  }

  /** A draft whose trimmed text is already in the list is appended again,
      not rejected. */
  lemma AddAcceptsDuplicate(e: ListEditor)
    requires !Text.IsBlank(e.draft) && Text.Trim(e.draft) in e.items
    ensures Add(e).items == e.items + [Text.Trim(e.draft)]
  {
    var r := Add(e);
    assert r.items == r.items[..|e.items|] + [r.items[|e.items|]];
  }

  /** The "remove" button of entry `index`: every other entry stays, in order;
      an index outside the list removes nothing. */
  function Remove(e: ListEditor, index: int): (r: ListEditor)
    ensures r.draft == e.draft
    ensures 0 <= index < |e.items| ==>
      |r.items| == |e.items| - 1 && r.items == e.items[..index] + e.items[index + 1..]
    ensures !(0 <= index < |e.items|) ==> r.items == e.items
  {
    e.(items := Seqs.RemoveAt(e.items, index))
  }

  /** Removing keeps a list of clean entries clean. */
  lemma RemoveKeepsClean(e: ListEditor, index: int)
    requires AllClean(e.items)
    ensures AllClean(Remove(e, index).items)
  {
    var r := Remove(e, index);
    if 0 <= index < |e.items| {
      forall i | 0 <= i < |r.items|
        ensures |r.items[i]| > 0 && Text.IsTrimmed(r.items[i])
      {
        if i < index {
          assert r.items[i] == e.items[i];
        } else {
          assert r.items[i] == e.items[i + 1];
        }
      }
    }
  }
}

/** The trainer store of the trainer management screen: the trainer record,
    the filtered view behind the search box and the status drop-down, and the
    delete and save (update or create) handlers, each a pure function from the
    old list, and its argument, to the new list. */
module Trainers {
  import opened Shared
  import Text
  import Seqs
  import Ids

  /** A trainer. `hourlyRate` is in cents; `rating` is a score such as 4.9. */
  datatype Trainer = Trainer(
    id: int,
    name: string,
    email: string,
    phone: string,
    specialty: string,
    experience: int,
    rating: real,
    clients: int,
    status: Activity,
    certifications: seq<string>,
    bio: string,
    hourlyRate: int)

  /** A `Partial<Trainer>` payload: `Some` for each key it carries. */
  datatype TrainerPatch = TrainerPatch(
    id: Option<int>,
    name: Option<string>,
    email: Option<string>,
    phone: Option<string>,
    specialty: Option<string>,
    experience: Option<int>,
    rating: Option<real>,
    clients: Option<int>,
    status: Option<Activity>,
    certifications: Option<seq<string>>,
    bio: Option<string>,
    hourlyRate: Option<int>)

  /** `{ ...t, ...patch }`: each key the payload carries replaces the
      trainer's field, every other field is kept. */
  function Merge(t: Trainer, patch: TrainerPatch): (r: Trainer)
    ensures r == t <==> AgreesWith(patch, t)
  {
    Trainer(
      patch.id.GetOr(t.id),
      patch.name.GetOr(t.name),
      patch.email.GetOr(t.email),
      patch.phone.GetOr(t.phone),
      patch.specialty.GetOr(t.specialty),
      patch.experience.GetOr(t.experience),
      patch.rating.GetOr(t.rating),
      patch.clients.GetOr(t.clients),
      patch.status.GetOr(t.status),
      patch.certifications.GetOr(t.certifications),
      patch.bio.GetOr(t.bio),
      patch.hourlyRate.GetOr(t.hourlyRate))
  }

  /** Every key the payload carries already holds the trainer's value. */
  predicate AgreesWith(patch: TrainerPatch, t: Trainer) {
    && (patch.id.None? || patch.id.value == t.id)
    && (patch.name.None? || patch.name.value == t.name)
    && (patch.email.None? || patch.email.value == t.email)
    && (patch.phone.None? || patch.phone.value == t.phone)
    && (patch.specialty.None? || patch.specialty.value == t.specialty)
    && (patch.experience.None? || patch.experience.value == t.experience)
    && (patch.rating.None? || patch.rating.value == t.rating)
    && (patch.clients.None? || patch.clients.value == t.clients)
    && (patch.status.None? || patch.status.value == t.status)
    && (patch.certifications.None? || patch.certifications.value == t.certifications)
    && (patch.bio.None? || patch.bio.value == t.bio)
    && (patch.hourlyRate.None? || patch.hourlyRate.value == t.hourlyRate)
  }

  /** Merging the same payload a second time changes nothing: after one merge
      the trainer agrees with every key of the payload. */
  lemma MergeIdempotent(t: Trainer, patch: TrainerPatch)
    ensures Merge(Merge(t, patch), patch) == Merge(t, patch)
  {
    assert AgreesWith(patch, Merge(t, patch));
  }

  /** The payload carries every key except `id`, `rating` and `clients`, the
      three keys that creation overrides. */
  predicate Complete(patch: TrainerPatch) {
    && patch.name.Some? && patch.email.Some? && patch.phone.Some?
    && patch.specialty.Some? && patch.experience.Some? && patch.status.Some?
    && patch.certifications.Some? && patch.bio.Some? && patch.hourlyRate.Some?
  }

  function IdOf(t: Trainer): int {
    t.id
  }

  /** `trainers.map(t => t.id)`. */
  function IdsOf(ts: seq<Trainer>): seq<int> {
    Seqs.Map(ts, IdOf)
  }

  /** No two trainers share an id. */
  predicate IdsDistinct(ts: seq<Trainer>) {
    Seqs.KeysDistinct(ts, IdOf)
  }

  /** One trainer passes the search box (case-insensitive substring of the
      name, the specialty or the email) and the status drop-down. */
  predicate Matches(t: Trainer, term: string, status: string) {
    var s := Text.Lower(term);
    && (Text.Contains(Text.Lower(t.name), s)
        || Text.Contains(Text.Lower(t.specialty), s)
        || Text.Contains(Text.Lower(t.email), s))
    && FilterAccepts(status, t.status.Name())
  }

  function Matcher(term: string, status: string): Trainer -> bool {
    (t: Trainer) => Matches(t, term, status)
  }

  /** `filteredTrainers`: the trainers that match, in list order and with
      their multiplicities. */
  function View(ts: seq<Trainer>, term: string, status: string): (r: seq<Trainer>)
    ensures forall t :: t in r <==> t in ts && Matches(t, term, status)
    ensures forall t :: multiset(r)[t] == if Matches(t, term, status) then multiset(ts)[t] else 0
    ensures Seqs.IsSubsequence(r, ts)
  {
    Seqs.FilterMultiplicity(ts, Matcher(term, status));
    Seqs.FilterIsSubsequence(ts, Matcher(term, status));
    Seqs.Filter(ts, Matcher(term, status))
  }

  /** With an empty search term and the drop-down on `'all'`, the view is the
      whole list. */
  lemma ViewUnfiltered(ts: seq<Trainer>)
    ensures View(ts, "", All) == ts
  {
    forall t | t in ts
      ensures Matches(t, "", All)
    {
      assert Text.OccursAt(Text.Lower(t.name), "", 0);
    }
    Seqs.FilterKeepsAll(ts, Matcher("", All));
  }

  /** The search is case-insensitive: two terms that lowercase alike give the
      same view. */
  lemma ViewIgnoresCase(ts: seq<Trainer>, t1: string, t2: string, status: string)
    requires Text.Lower(t1) == Text.Lower(t2)
    ensures View(ts, t1, status) == View(ts, t2, status)
  {
    Seqs.FilterCongruent(ts, Matcher(t1, status), Matcher(t2, status));
  }

  /** The status drop-down alone selects exactly the trainers with that status. */
  lemma ViewByStatus(ts: seq<Trainer>, a: Activity, t: Trainer)
    ensures t in View(ts, "", a.Name()) <==> t in ts && t.status == a
  {
    assert Text.OccursAt(Text.Lower(t.name), "", 0);
    StatusFilterSelects(t.status, a);
  }

  function IdIsNot(id: int): Trainer -> bool {
    (t: Trainer) => t.id != id
  }

  /** `handleDeleteTrainer`: keeps, in order, every trainer whose id differs. */
  function Delete(ts: seq<Trainer>, id: int): (r: seq<Trainer>)
    ensures forall t :: t in r <==> t in ts && t.id != id
    ensures forall t :: multiset(r)[t] == if t.id != id then multiset(ts)[t] else 0
    ensures Seqs.IsSubsequence(r, ts)
  {
    Seqs.FilterMultiplicity(ts, IdIsNot(id));
    Seqs.FilterIsSubsequence(ts, IdIsNot(id));
    Seqs.Filter(ts, IdIsNot(id))
  }

  /** Deleting an id that no trainer has is a silent no-op. */
  lemma DeleteAbsent(ts: seq<Trainer>, id: int)
    requires id !in IdsOf(ts)
    ensures Delete(ts, id) == ts
  {
    forall t | t in ts
      ensures t.id != id
    {
      var i :| 0 <= i < |ts| && ts[i] == t;
      assert IdsOf(ts)[i] == t.id;
    }
    Seqs.FilterKeepsAll(ts, IdIsNot(id));
  }

  /** Deleting keeps ids distinct. */
  lemma DeleteKeepsIdsDistinct(ts: seq<Trainer>, id: int)
    requires IdsDistinct(ts)
    ensures IdsDistinct(Delete(ts, id))
  {
    Seqs.SubsequenceKeepsKeysDistinct(Delete(ts, id), ts, IdOf);
  }

  function MergeWhereId(id: int, patch: TrainerPatch): Trainer -> Trainer {
    (t: Trainer) => if t.id == id then Merge(t, patch) else t
  }

  /** The update branch of `handleSaveTrainer`: the payload is merged over
      each trainer with the selected id; the list keeps its length and every
      other trainer stays as it was. */
  function Update(ts: seq<Trainer>, id: int, patch: TrainerPatch): (r: seq<Trainer>)
    ensures |r| == |ts|
    ensures forall i | 0 <= i < |ts| && ts[i].id == id :: r[i] == Merge(ts[i], patch)
    ensures forall i | 0 <= i < |ts| && ts[i].id != id :: r[i] == ts[i]
  {
    Seqs.Map(ts, MergeWhereId(id, patch))
  }

  /** Applying the same update twice gives the list it gives once. */
  lemma {:induction false} UpdateIdempotent(ts: seq<Trainer>, id: int, patch: TrainerPatch)
    ensures Update(Update(ts, id, patch), id, patch) == Update(ts, id, patch)
  {
    var once := Update(ts, id, patch);
    var twice := Update(once, id, patch);
    forall i | 0 <= i < |ts|
      ensures twice[i] == once[i]
    {
      if ts[i].id == id {
        assert Merge(Merge(ts[i], patch), patch) == Merge(ts[i], patch);
      }
    }
  }

  /** An update whose payload leaves the id alone keeps ids distinct. */
  lemma UpdateKeepsIdsDistinct(ts: seq<Trainer>, id: int, patch: TrainerPatch)
    requires IdsDistinct(ts)
    requires patch.id.None? || patch.id == Some(id)
    ensures IdsDistinct(Update(ts, id, patch))
  {
    var r := Update(ts, id, patch);
    assert forall i | 0 <= i < |ts| :: r[i].id == ts[i].id;
  }

  /** Updating an id that no trainer has changes nothing. */
  lemma UpdateAbsent(ts: seq<Trainer>, id: int, patch: TrainerPatch)
    requires id !in IdsOf(ts)
    ensures Update(ts, id, patch) == ts
  {
    var r := Update(ts, id, patch);
    forall i | 0 <= i < |ts|
      ensures r[i] == ts[i]
    {
      assert IdsOf(ts)[i] == ts[i].id;
    }
  }

  /** The create branch of `handleSaveTrainer`: appends
      `{ ...patch, id: Math.max(...ids) + 1, rating: 0, clients: 0 }`. */
  function Create(ts: seq<Trainer>, patch: TrainerPatch): (r: Result<seq<Trainer>, Ids.CreateError>)
    ensures r == Err(Ids.NoIntegerId) <==> |ts| == 0
    ensures r.Ok? <==> |ts| > 0 && Complete(patch)
    ensures r.Ok? ==> |r.value| == |ts| + 1 && r.value[..|ts|] == ts
    ensures r.Ok? ==> r.value[|ts|].id - 1 in IdsOf(ts)
    ensures r.Ok? ==> forall t :: t in ts ==> t.id < r.value[|ts|].id
    ensures r.Ok? ==> r.value[|ts|].rating == 0.0 && r.value[|ts|].clients == 0
    ensures r.Ok? ==> Merge(r.value[|ts|], patch.(id := None, rating := None, clients := None)) == r.value[|ts|]
  {
    match Ids.NextId(IdsOf(ts))
    case None => Err(Ids.NoIntegerId)
    case Some(newId) =>
      if !Complete(patch) then Err(Ids.IncompletePayload)
      else
        var t := Trainer(
          newId, patch.name.value, patch.email.value, patch.phone.value,
          patch.specialty.value, patch.experience.value, 0.0, 0,
          patch.status.value, patch.certifications.value, patch.bio.value,
          patch.hourlyRate.value);
        assert forall q :: q in ts ==> q.id in IdsOf(ts) by {
          forall q | q in ts ensures q.id in IdsOf(ts) {
            var i :| 0 <= i < |ts| && ts[i] == q;
            assert IdsOf(ts)[i] == q.id;
          }
        }
        Ok(ts + [t])
  }

  /** Creating keeps ids distinct: the new id exceeds every existing one. */
  lemma CreateKeepsIdsDistinct(ts: seq<Trainer>, patch: TrainerPatch)
    requires IdsDistinct(ts)
    ensures Create(ts, patch).Ok? ==> IdsDistinct(Create(ts, patch).value)
  {
    var r := Create(ts, patch);
    if r.Ok? {
      var s := r.value;
      forall i, j | 0 <= i < j < |s|
        ensures s[i].id != s[j].id
      {
        assert s[i] == ts[i];
        if j < |ts| {
          assert s[j] == ts[j];
        } else {
          assert ts[i] in ts;
        }
      }
    }
  }

  /** `handleSaveTrainer`: updates the selected trainer, or creates one when
      none is selected. */
  function Save(ts: seq<Trainer>, selected: Option<Trainer>, patch: TrainerPatch): (r: Result<seq<Trainer>, Ids.CreateError>)
    ensures selected.Some? ==> r.Ok? && |r.value| == |ts|
    ensures selected.Some? ==> r == Ok(Update(ts, selected.value.id, patch))
    ensures selected.None? ==> (r.Ok? <==> |ts| > 0 && Complete(patch))
    ensures selected.None? ==> r == Create(ts, patch)
  {
    match selected
    case Some(sel) => Ok(Update(ts, sel.id, patch))
    case None => Create(ts, patch)
  }

  /** Saving a payload without an `id` key keeps ids distinct. */
  lemma SaveKeepsIdsDistinct(ts: seq<Trainer>, selected: Option<Trainer>, patch: TrainerPatch)
    requires IdsDistinct(ts) && patch.id.None?
    ensures Save(ts, selected, patch).Ok? ==> IdsDistinct(Save(ts, selected, patch).value)
  {
    match selected
    case Some(sel) => UpdateKeepsIdsDistinct(ts, sel.id, patch);
    case None => CreateKeepsIdsDistinct(ts, patch);
  }
}

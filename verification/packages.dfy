/** The training-package store of the package management screen: the package
    record, the filtered view behind the search box and the two drop-downs,
    and the delete and save (update or create) handlers. Each handler is a
    pure function from the old list, and its argument, to the new list. */
module Packages {
  import opened Shared
  import Text
  import Seqs
  import Ids

  datatype Difficulty = Beginner | Intermediate | Advanced

  /** A training package. `price` is in cents. */
  datatype Package = Package(
    id: int,
    name: string,
    trainer: string,
    price: int,
    duration: int,
    sessions: int,
    description: string,
    category: string,
    status: Activity,
    enrolled: int,
    maxCapacity: int,
    difficulty: Difficulty,
    equipment: seq<string>)

  /** A `Partial<TrainingPackage>` payload: `Some` for each key it carries. */
  datatype PackagePatch = PackagePatch(
    id: Option<int>,
    name: Option<string>,
    trainer: Option<string>,
    price: Option<int>,
    duration: Option<int>,
    sessions: Option<int>,
    description: Option<string>,
    category: Option<string>,
    status: Option<Activity>,
    enrolled: Option<int>,
    maxCapacity: Option<int>,
    difficulty: Option<Difficulty>,
    equipment: Option<seq<string>>)

  /** `{ ...p, ...patch }`: each key the payload carries replaces the
      package's field, every other field is kept. */
  function Merge(p: Package, patch: PackagePatch): (r: Package)
    ensures r == p <==> AgreesWith(patch, p)
  {
    Package(
      patch.id.GetOr(p.id),
      patch.name.GetOr(p.name),
      patch.trainer.GetOr(p.trainer),
      patch.price.GetOr(p.price),
      patch.duration.GetOr(p.duration),
      patch.sessions.GetOr(p.sessions),
      patch.description.GetOr(p.description),
      patch.category.GetOr(p.category),
      patch.status.GetOr(p.status),
      patch.enrolled.GetOr(p.enrolled),
      patch.maxCapacity.GetOr(p.maxCapacity),
      patch.difficulty.GetOr(p.difficulty),
      patch.equipment.GetOr(p.equipment))
  }

  /** Every key the payload carries already holds the package's value. */
  predicate AgreesWith(patch: PackagePatch, p: Package) {
    && (patch.id.None? || patch.id.value == p.id)
    && (patch.name.None? || patch.name.value == p.name)
    && (patch.trainer.None? || patch.trainer.value == p.trainer)
    && (patch.price.None? || patch.price.value == p.price)
    && (patch.duration.None? || patch.duration.value == p.duration)
    && (patch.sessions.None? || patch.sessions.value == p.sessions)
    && (patch.description.None? || patch.description.value == p.description)
    && (patch.category.None? || patch.category.value == p.category)
    && (patch.status.None? || patch.status.value == p.status)
    && (patch.enrolled.None? || patch.enrolled.value == p.enrolled)
    && (patch.maxCapacity.None? || patch.maxCapacity.value == p.maxCapacity)
    && (patch.difficulty.None? || patch.difficulty.value == p.difficulty)
    && (patch.equipment.None? || patch.equipment.value == p.equipment)
  }

  /** Merging the same payload a second time changes nothing: after one merge
      the package agrees with every key of the payload. */
  lemma MergeIdempotent(p: Package, patch: PackagePatch)
    ensures Merge(Merge(p, patch), patch) == Merge(p, patch)
  {
    assert AgreesWith(patch, Merge(p, patch));
  }

  /** The payload carries every key except `id` and `enrolled`, the two keys
      that creation overrides. */
  predicate Complete(patch: PackagePatch) {
    && patch.name.Some? && patch.trainer.Some? && patch.price.Some?
    && patch.duration.Some? && patch.sessions.Some? && patch.description.Some?
    && patch.category.Some? && patch.status.Some? && patch.maxCapacity.Some?
    && patch.difficulty.Some? && patch.equipment.Some?
  }

  function IdOf(p: Package): int {
    p.id
  }

  /** `packages.map(p => p.id)`. */
  function IdsOf(ps: seq<Package>): seq<int> {
    Seqs.Map(ps, IdOf)
  }

  /** No two packages share an id. */
  predicate IdsDistinct(ps: seq<Package>) {
    Seqs.KeysDistinct(ps, IdOf)
  }

  /** One package passes the search box (case-insensitive substring of the
      name, the trainer or the category) and both drop-downs. */
  predicate Matches(p: Package, term: string, category: string, status: string) {
    var t := Text.Lower(term);
    && (Text.Contains(Text.Lower(p.name), t)
        || Text.Contains(Text.Lower(p.trainer), t)
        || Text.Contains(Text.Lower(p.category), t))
    && FilterAccepts(category, p.category)
    && FilterAccepts(status, p.status.Name())
  }

  function Matcher(term: string, category: string, status: string): Package -> bool {
    (p: Package) => Matches(p, term, category, status)
  }

  /** `filteredPackages`: the packages that match, in list order and with
      their multiplicities. */
  function View(ps: seq<Package>, term: string, category: string, status: string): (r: seq<Package>)
    ensures forall p :: p in r <==> p in ps && Matches(p, term, category, status)
    ensures forall p :: multiset(r)[p] == if Matches(p, term, category, status) then multiset(ps)[p] else 0
    ensures Seqs.IsSubsequence(r, ps)
  {
    Seqs.FilterMultiplicity(ps, Matcher(term, category, status));
    Seqs.FilterIsSubsequence(ps, Matcher(term, category, status));
    Seqs.Filter(ps, Matcher(term, category, status))
  }

  /** With an empty search term and both drop-downs on `'all'`, the view is
      the whole list. */
  lemma ViewUnfiltered(ps: seq<Package>)
    ensures View(ps, "", All, All) == ps
  {
    forall p | p in ps
      ensures Matches(p, "", All, All)
    {
      assert Text.OccursAt(Text.Lower(p.name), "", 0);
    }
    Seqs.FilterKeepsAll(ps, Matcher("", All, All));
  }

  /** The search is case-insensitive: two terms that lowercase alike give the
      same view. */
  lemma ViewIgnoresCase(ps: seq<Package>, t1: string, t2: string, category: string, status: string)
    requires Text.Lower(t1) == Text.Lower(t2)
    ensures View(ps, t1, category, status) == View(ps, t2, category, status)
  {
    Seqs.FilterCongruent(ps, Matcher(t1, category, status), Matcher(t2, category, status));
  }

  /** The status drop-down alone selects exactly the packages with that status. */
  lemma ViewByStatus(ps: seq<Package>, a: Activity, p: Package)
    ensures p in View(ps, "", All, a.Name()) <==> p in ps && p.status == a
  {
    assert Text.OccursAt(Text.Lower(p.name), "", 0);
    StatusFilterSelects(p.status, a);
  }

  /** The category drop-down alone selects exactly the packages of that
      category. */
  lemma ViewByCategory(ps: seq<Package>, c: string, p: Package)
    requires c != All
    ensures p in View(ps, "", c, All) <==> p in ps && p.category == c
  {
    assert Text.OccursAt(Text.Lower(p.name), "", 0);
  }

  function IdIsNot(id: int): Package -> bool {
    (p: Package) => p.id != id
  }

  /** `handleDeletePackage`: keeps, in order, every package whose id differs. */
  function Delete(ps: seq<Package>, id: int): (r: seq<Package>)
    ensures forall p :: p in r <==> p in ps && p.id != id
    ensures forall p :: multiset(r)[p] == if p.id != id then multiset(ps)[p] else 0
    ensures Seqs.IsSubsequence(r, ps)
  {
    Seqs.FilterMultiplicity(ps, IdIsNot(id));
    Seqs.FilterIsSubsequence(ps, IdIsNot(id));
    Seqs.Filter(ps, IdIsNot(id))
  }

  /** Deleting an id that no package has is a silent no-op. */
  lemma DeleteAbsent(ps: seq<Package>, id: int)
    requires id !in IdsOf(ps)
    ensures Delete(ps, id) == ps
  {
    forall p | p in ps
      ensures p.id != id
    {
      var i :| 0 <= i < |ps| && ps[i] == p;
      assert IdsOf(ps)[i] == p.id;
    }
    Seqs.FilterKeepsAll(ps, IdIsNot(id));
  }

  /** Deleting keeps ids distinct. */
  lemma DeleteKeepsIdsDistinct(ps: seq<Package>, id: int)
    requires IdsDistinct(ps)
    ensures IdsDistinct(Delete(ps, id))
  {
    Seqs.SubsequenceKeepsKeysDistinct(Delete(ps, id), ps, IdOf);
  }

  function MergeWhereId(id: int, patch: PackagePatch): Package -> Package {
    (p: Package) => if p.id == id then Merge(p, patch) else p
  }

  /** The update branch of `handleSavePackage`: the payload is merged over
      each package with the selected id; the list keeps its length and every
      other package stays as it was. */
  function Update(ps: seq<Package>, id: int, patch: PackagePatch): (r: seq<Package>)
    ensures |r| == |ps|
    ensures forall i | 0 <= i < |ps| && ps[i].id == id :: r[i] == Merge(ps[i], patch)
    ensures forall i | 0 <= i < |ps| && ps[i].id != id :: r[i] == ps[i]
  {
    Seqs.Map(ps, MergeWhereId(id, patch))
  }

  /** Applying the same update twice gives the list it gives once, whether or
      not the payload moves the package to another id. */
  lemma {:induction false} UpdateIdempotent(ps: seq<Package>, id: int, patch: PackagePatch)
    ensures Update(Update(ps, id, patch), id, patch) == Update(ps, id, patch)
  {
    var once := Update(ps, id, patch);
    var twice := Update(once, id, patch);
    forall i | 0 <= i < |ps|
      ensures twice[i] == once[i]
    {
      if ps[i].id == id {
        assert Merge(Merge(ps[i], patch), patch) == Merge(ps[i], patch);
      }
    }
  }

  /** An update whose payload leaves the id alone keeps ids distinct. */
  lemma UpdateKeepsIdsDistinct(ps: seq<Package>, id: int, patch: PackagePatch)
    requires IdsDistinct(ps)
    requires patch.id.None? || patch.id == Some(id)
    ensures IdsDistinct(Update(ps, id, patch))
  {
    var r := Update(ps, id, patch);
    assert forall i | 0 <= i < |ps| :: r[i].id == ps[i].id;
  }

  /** Updating an id that no package has changes nothing. */
  lemma UpdateAbsent(ps: seq<Package>, id: int, patch: PackagePatch)
    requires id !in IdsOf(ps)
    ensures Update(ps, id, patch) == ps
  {
    var r := Update(ps, id, patch);
    forall i | 0 <= i < |ps|
      ensures r[i] == ps[i]
    {
      assert IdsOf(ps)[i] == ps[i].id;
    }
  }

  /** The create branch of `handleSavePackage`: appends
      `{ ...patch, id: Math.max(...ids) + 1, enrolled: 0 }`. */
  function Create(ps: seq<Package>, patch: PackagePatch): (r: Result<seq<Package>, Ids.CreateError>)
    ensures r == Err(Ids.NoIntegerId) <==> |ps| == 0
    ensures r.Ok? <==> |ps| > 0 && Complete(patch)
    ensures r.Ok? ==> |r.value| == |ps| + 1 && r.value[..|ps|] == ps
    ensures r.Ok? ==> r.value[|ps|].id - 1 in IdsOf(ps)
    ensures r.Ok? ==> forall p :: p in ps ==> p.id < r.value[|ps|].id
    ensures r.Ok? ==> r.value[|ps|].enrolled == 0
    ensures r.Ok? ==> Merge(r.value[|ps|], patch.(id := None, enrolled := None)) == r.value[|ps|]
  {
    match Ids.NextId(IdsOf(ps))
    case None => Err(Ids.NoIntegerId)
    case Some(newId) =>
      if !Complete(patch) then Err(Ids.IncompletePayload)
      else
        var p := Package(
          newId, patch.name.value, patch.trainer.value, patch.price.value,
          patch.duration.value, patch.sessions.value, patch.description.value,
          patch.category.value, patch.status.value, 0, patch.maxCapacity.value,
          patch.difficulty.value, patch.equipment.value);
        assert forall q :: q in ps ==> q.id in IdsOf(ps) by {
          forall q | q in ps ensures q.id in IdsOf(ps) {
            var i :| 0 <= i < |ps| && ps[i] == q;
            assert IdsOf(ps)[i] == q.id;
          }
        }
        Ok(ps + [p])
  }

  /** Creating keeps ids distinct: the new id exceeds every existing one. */
  lemma CreateKeepsIdsDistinct(ps: seq<Package>, patch: PackagePatch)
    requires IdsDistinct(ps)
    ensures Create(ps, patch).Ok? ==> IdsDistinct(Create(ps, patch).value)
  {
    var r := Create(ps, patch);
    if r.Ok? {
      var s := r.value;
      forall i, j | 0 <= i < j < |s|
        ensures s[i].id != s[j].id
      {
        assert s[i] == ps[i];
        if j < |ps| {
          assert s[j] == ps[j];
        } else {
          assert ps[i] in ps;
        }
      }
    }
  }

  /** `handleSavePackage`: updates the selected package, or creates one when
      none is selected. */
  function Save(ps: seq<Package>, selected: Option<Package>, patch: PackagePatch): (r: Result<seq<Package>, Ids.CreateError>)
    ensures selected.Some? ==> r.Ok? && |r.value| == |ps|
    ensures selected.Some? ==> r == Ok(Update(ps, selected.value.id, patch))
    ensures selected.None? ==> (r.Ok? <==> |ps| > 0 && Complete(patch))
    ensures selected.None? ==> r == Create(ps, patch)
  {
    match selected
    case Some(sel) => Ok(Update(ps, sel.id, patch))
    case None => Create(ps, patch)
  }

  /** Saving a payload without an `id` key keeps ids distinct. */
  lemma SaveKeepsIdsDistinct(ps: seq<Package>, selected: Option<Package>, patch: PackagePatch)
    requires IdsDistinct(ps) && patch.id.None?
    ensures Save(ps, selected, patch).Ok? ==> IdsDistinct(Save(ps, selected, patch).value)
  {
    match selected
    case Some(sel) => UpdateKeepsIdsDistinct(ps, sel.id, patch);
    case None => CreateKeepsIdsDistinct(ps, patch);
  }

  /** Deleting the package with the largest id frees that id: the next package
      created receives it again, as soon as the runner-up id is one less. */
  lemma DeletedMaxIdIsReused(ps: seq<Package>, m: Package, q: Package, patch: PackagePatch)
    requires IdsDistinct(ps) && m in ps && q in ps && Complete(patch)
    requires forall p :: p in ps ==> p.id <= m.id
    requires q.id == m.id - 1
    ensures var r := Create(Delete(ps, m.id), patch);
      r.Ok? && r.value[|Delete(ps, m.id)|].id == m.id
  {
    var d := Delete(ps, m.id);
    assert q in d;
    var r := Create(d, patch);
    var n := r.value[|d|];
    assert q.id < n.id;
    var k :| 0 <= k < |d| && IdsOf(d)[k] == n.id - 1;
    assert d[k] in d;
  }

  /** The packages the screen starts with (descriptions left empty). */
  const Package1: Package := Package(1, "Strength Building Bootcamp", "Sarah Wilson", 29900, 8, 16, "",
    "Strength Training", Active, 24, 30, Intermediate, ["Barbells", "Dumbbells", "Resistance Bands"])
  const Package2: Package := Package(2, "HIIT Fat Burn Challenge", "Mike Johnson", 19900, 6, 12, "",
    "Cardio", Active, 31, 25, Advanced, ["Kettlebells", "Jump Ropes", "Medicine Balls"])
  const Package3: Package := Package(3, "Mindful Yoga Journey", "Emily Rodriguez", 14900, 4, 8, "",
    "Yoga", Active, 18, 20, Beginner, ["Yoga Mats", "Blocks", "Straps"])
  const Package4: Package := Package(4, "CrossFit Fundamentals", "David Kim", 34900, 10, 20, "",
    "CrossFit", Active, 15, 15, Intermediate, ["Olympic Bars", "Bumper Plates", "Pull-up Bars", "Rings"])
  const Seed: seq<Package> := [Package1, Package2, Package3, Package4]

  /** The starting data already has more enrolled than capacity (31 of 25):
      nothing in the store enforces `enrolled <= maxCapacity`. Its ids are
      distinct, and the next package created gets id 5. */
  lemma SeedFacts()
    ensures exists p :: p in Seed && p.enrolled > p.maxCapacity
    ensures IdsDistinct(Seed)
    ensures Ids.NextId(IdsOf(Seed)) == Some(5)
  {
    assert Package2 in Seed;
    assert IdsOf(Seed) == [1, 2, 3, 4];
  }

  /** Searching "YOGA" finds the yoga package of the starting data, whatever
      the case of the term. */
  lemma SearchScenario()
    ensures Package3 in View(Seed, "YOGA", All, All)
  {
    YogaFindsYoga();
  }

  /** "Mindful Yoga Journey" lowercased holds "yoga" at position 8. */
  lemma YogaFindsYoga()
    ensures Matches(Package3, "YOGA", All, All)
  {
    var t := Text.Lower("YOGA");
    assert t == "yoga";
    assert Text.Lower(Package3.name)[8..12] == "yoga";
    assert Text.OccursAt(Text.Lower(Package3.name), t, 8);
  }
}

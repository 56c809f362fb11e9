/** The package form: its fields, their defaults, the prefill from the package
    being edited, the equipment list editor and the payload handed to the
    package store on submit. */
module PackageForm {
  import opened Shared
  import Text
  import FormLists
  import Packages

  /** The form's fields: every package field except `id` and `enrolled`. */
  datatype FormData = FormData(
    name: string,
    trainer: string,
    price: int,
    duration: int,
    sessions: int,
    description: string,
    category: string,
    status: Activity,
    maxCapacity: int,
    difficulty: Packages.Difficulty,
    equipment: seq<string>)

  /** The form's fields and the equipment draft in the input box. */
  datatype FormState = FormState(data: FormData, newEquipment: string)

  /** The initial field values: zero numbers, empty strings, status
      `'active'`, difficulty `'Beginner'` and no equipment. */
  const Defaults: FormData :=
    FormData("", "", 0, 0, 0, "", "", Active, 0, Packages.Beginner, [])

  /** The fields shown when the form opens: copied from the package being
      edited, or the defaults when a new package is being added. */
  function Prefill(pkg: Option<Packages.Package>): (d: FormData)
    ensures pkg.None? ==> d == Defaults
    ensures pkg.Some? ==>
      var p := pkg.value;
      && d.name == p.name && d.trainer == p.trainer && d.price == p.price
      && d.duration == p.duration && d.sessions == p.sessions
      && d.description == p.description && d.category == p.category
      && d.status == p.status && d.maxCapacity == p.maxCapacity
      && d.difficulty == p.difficulty && d.equipment == p.equipment
  {
    match pkg
    case None => Defaults
    case Some(p) =>
      FormData(p.name, p.trainer, p.price, p.duration, p.sessions, p.description,
               p.category, p.status, p.maxCapacity, p.difficulty, p.equipment)
  }

  /** A freshly opened form: prefilled fields and an empty draft. */
  function Open(pkg: Option<Packages.Package>): FormState {
    FormState(Prefill(pkg), "")
  }

  /** The payload the form hands to the store on submit: every form field, and
      never an `id` or an `enrolled` key. */
  function Payload(d: FormData): (patch: Packages.PackagePatch)
    ensures patch.id.None? && patch.enrolled.None?
    ensures Packages.Complete(patch)
    ensures forall p :: Packages.Merge(p, patch) == p.(
      name := d.name, trainer := d.trainer, price := d.price, duration := d.duration,
      sessions := d.sessions, description := d.description, category := d.category,
      status := d.status, maxCapacity := d.maxCapacity, difficulty := d.difficulty,
      equipment := d.equipment)
  {
    Packages.PackagePatch(
      None, Some(d.name), Some(d.trainer), Some(d.price), Some(d.duration),
      Some(d.sessions), Some(d.description), Some(d.category), Some(d.status),
      None, Some(d.maxCapacity), Some(d.difficulty), Some(d.equipment))
  }

  /** Submitting the form. */
  function Submit(st: FormState): Packages.PackagePatch {
    Payload(st.data)
  }

  function Equipment(st: FormState): FormLists.ListEditor {
    FormLists.ListEditor(st.data.equipment, st.newEquipment)
  }

  /** `addEquipment`: appends the trimmed draft and clears it when the draft is
      more than whitespace; otherwise nothing changes. No other field moves. */
  function AddEquipment(st: FormState): (r: FormState)
    ensures r.data == st.data.(equipment := r.data.equipment)
    ensures Text.IsBlank(st.newEquipment) ==> r == st
    ensures !Text.IsBlank(st.newEquipment) ==>
      && r.newEquipment == ""
      && r.data.equipment == st.data.equipment + [Text.Trim(st.newEquipment)]
  {
    var e := FormLists.Add(Equipment(st));
    assert !Text.IsBlank(st.newEquipment) ==>
      e.items == e.items[..|st.data.equipment|] + [e.items[|st.data.equipment|]];
    FormState(st.data.(equipment := e.items), e.draft)
  }

  /** `removeEquipment(index)`: drops the entry at `index`, keeping the others
      in order; an index outside the list changes nothing. No other field and
      not the draft moves. */
  function RemoveEquipment(st: FormState, index: int): (r: FormState)
    ensures r.newEquipment == st.newEquipment
    ensures r.data == st.data.(equipment := r.data.equipment)
    ensures 0 <= index < |st.data.equipment| ==>
      |r.data.equipment| == |st.data.equipment| - 1
      && r.data.equipment == st.data.equipment[..index] + st.data.equipment[index + 1..]
    ensures !(0 <= index < |st.data.equipment|) ==> r == st
  {
    var e := FormLists.Remove(Equipment(st), index);
    FormState(st.data.(equipment := e.items), e.draft)
  }

  /** Saving the form over an existing package never changes any package's
      `id` or `enrolled`, whatever was typed. */
  lemma EditKeepsIdAndEnrolled(ps: seq<Packages.Package>, id: int, d: FormData)
    ensures var r := Packages.Update(ps, id, Payload(d));
      forall i | 0 <= i < |ps| :: r[i].id == ps[i].id && r[i].enrolled == ps[i].enrolled
  {
  }

  /** Opening a package for editing and saving without touching a field gives
      back the same package. */
  lemma UnchangedEditIsIdentity(p: Packages.Package)
    ensures Packages.Merge(p, Submit(Open(Some(p)))) == p
  {
  }

  /** ... and so leaves the whole list as it was, when ids are distinct. */
  lemma UnchangedSaveKeepsList(ps: seq<Packages.Package>, p: Packages.Package)
    requires Packages.IdsDistinct(ps) && p in ps
    ensures Packages.Save(ps, Some(p), Submit(Open(Some(p)))) == Ok(ps)
  {
    var r := Packages.Update(ps, p.id, Submit(Open(Some(p))));
    var j :| 0 <= j < |ps| && ps[j] == p;
    forall i | 0 <= i < |ps|
      ensures r[i] == ps[i]
    {
      if ps[i].id == p.id {
        assert Packages.IdOf(ps[i]) == Packages.IdOf(ps[j]);
        assert i == j;
      }
    }
    assert r == ps;
  }

  /** Submitting the form for a new package succeeds on any non-empty list,
      and on none other. */
  lemma CreateFromForm(ps: seq<Packages.Package>, d: FormData)
    ensures Packages.Create(ps, Payload(d)).Ok? <==> |ps| > 0
  {
  }
}

/** The trainer form: its fields, their defaults, the prefill from the trainer
    being edited, the certification list editor and the payload handed to the
    trainer store on submit. */
module TrainerForm {
  import opened Shared
  import Text
  import FormLists
  import Trainers

  /** The form's fields: every trainer field except `id`, `rating` and
      `clients`. */
  datatype FormData = FormData(
    name: string,
    email: string,
    phone: string,
    specialty: string,
    experience: int,
    status: Activity,
    certifications: seq<string>,
    bio: string,
    hourlyRate: int)

  /** The form's fields and the certification draft in the input box. */
  datatype FormState = FormState(data: FormData, newCertification: string)

  /** The initial field values: zero numbers, empty strings, status
      `'active'` and no certifications. */
  const Defaults: FormData := FormData("", "", "", "", 0, Active, [], "", 0)

  /** The fields shown when the form opens: copied from the trainer being
      edited, or the defaults when a new trainer is being added. */
  function Prefill(trainer: Option<Trainers.Trainer>): (d: FormData)
    ensures trainer.None? ==> d == Defaults
    ensures trainer.Some? ==>
      var t := trainer.value;
      && d.name == t.name && d.email == t.email && d.phone == t.phone
      && d.specialty == t.specialty && d.experience == t.experience
      && d.status == t.status && d.certifications == t.certifications
      && d.bio == t.bio && d.hourlyRate == t.hourlyRate
  {
    match trainer
    case None => Defaults
    case Some(t) =>
      FormData(t.name, t.email, t.phone, t.specialty, t.experience, t.status,
               t.certifications, t.bio, t.hourlyRate)
  }

  /** A freshly opened form: prefilled fields and an empty draft. */
  function Open(trainer: Option<Trainers.Trainer>): FormState {
    FormState(Prefill(trainer), "")
  }

  /** The payload the form hands to the store on submit: every form field, and
      never an `id`, a `rating` or a `clients` key. */
  function Payload(d: FormData): (patch: Trainers.TrainerPatch)
    ensures patch.id.None? && patch.rating.None? && patch.clients.None?
    ensures Trainers.Complete(patch)
    ensures forall t :: Trainers.Merge(t, patch) == t.(
      name := d.name, email := d.email, phone := d.phone, specialty := d.specialty,
      experience := d.experience, status := d.status, certifications := d.certifications,
      bio := d.bio, hourlyRate := d.hourlyRate)
  {
    Trainers.TrainerPatch(
      None, Some(d.name), Some(d.email), Some(d.phone), Some(d.specialty),
      Some(d.experience), None, None, Some(d.status), Some(d.certifications),
      Some(d.bio), Some(d.hourlyRate))
  }

  /** Submitting the form. */
  function Submit(st: FormState): Trainers.TrainerPatch {
    Payload(st.data)
  }

  function Certifications(st: FormState): FormLists.ListEditor {
    FormLists.ListEditor(st.data.certifications, st.newCertification)
  }

  /** `addCertification`: appends the trimmed draft and clears it when the
      draft is more than whitespace; otherwise nothing changes. No other field
      moves. */
  function AddCertification(st: FormState): (r: FormState)
    ensures r.data == st.data.(certifications := r.data.certifications)
    ensures Text.IsBlank(st.newCertification) ==> r == st
    ensures !Text.IsBlank(st.newCertification) ==>
      && r.newCertification == ""
      && r.data.certifications == st.data.certifications + [Text.Trim(st.newCertification)]
  {
    var e := FormLists.Add(Certifications(st));
    assert !Text.IsBlank(st.newCertification) ==>
      e.items == e.items[..|st.data.certifications|] + [e.items[|st.data.certifications|]];
    FormState(st.data.(certifications := e.items), e.draft)
  }

  /** `removeCertification(index)`: drops the entry at `index`, keeping the
      others in order; an index outside the list changes nothing. No other
      field and not the draft moves. */
  function RemoveCertification(st: FormState, index: int): (r: FormState)
    ensures r.newCertification == st.newCertification
    ensures r.data == st.data.(certifications := r.data.certifications)
    ensures 0 <= index < |st.data.certifications| ==>
      |r.data.certifications| == |st.data.certifications| - 1
      && r.data.certifications == st.data.certifications[..index] + st.data.certifications[index + 1..]
    ensures !(0 <= index < |st.data.certifications|) ==> r == st
  {
    var e := FormLists.Remove(Certifications(st), index);
    FormState(st.data.(certifications := e.items), e.draft)
  }

  /** Saving the form over an existing trainer never changes any trainer's
      `id`, `rating` or `clients`, whatever was typed. */
  lemma EditKeepsIdRatingAndClients(ts: seq<Trainers.Trainer>, id: int, d: FormData)
    ensures var r := Trainers.Update(ts, id, Payload(d));
      forall i | 0 <= i < |ts| ::
        r[i].id == ts[i].id && r[i].rating == ts[i].rating && r[i].clients == ts[i].clients
  {
  }

  /** Opening a trainer for editing and saving without touching a field gives
      back the same trainer. */
  lemma UnchangedEditIsIdentity(t: Trainers.Trainer)
    ensures Trainers.Merge(t, Submit(Open(Some(t)))) == t
  {
  }

  /** ... and so leaves the whole list as it was, when ids are distinct. */
  lemma UnchangedSaveKeepsList(ts: seq<Trainers.Trainer>, t: Trainers.Trainer)
    requires Trainers.IdsDistinct(ts) && t in ts
    ensures Trainers.Save(ts, Some(t), Submit(Open(Some(t)))) == Ok(ts)
  {
    var r := Trainers.Update(ts, t.id, Submit(Open(Some(t))));
    var j :| 0 <= j < |ts| && ts[j] == t;
    forall i | 0 <= i < |ts|
      ensures r[i] == ts[i]
    {
      if ts[i].id == t.id {
        assert Trainers.IdOf(ts[i]) == Trainers.IdOf(ts[j]);
        assert i == j;
      }
    }
    assert r == ts;
  }

  /** Submitting the form for a new trainer succeeds on any non-empty list,
      and on none other. */
  lemma CreateFromForm(ts: seq<Trainers.Trainer>, d: FormData)
    ensures Trainers.Create(ts, Payload(d)).Ok? <==> |ts| > 0
  {
  }
}

/** The registration wizard: three steps (vehicle details, owner details,
    review) with presence checks on the way forward, a simulated submission
    that appends one Pending record to the collection, and the flags
    `loading` and `registrationComplete`. */
module Register {
  import opened Wrappers
  import opened Types
  import opened Dates
  import opened Details

  /** The vehicle form. */
  datatype VehicleForm = VehicleForm(
    registrationNumber: string,
    make: string,
    model: string,
    year: int,
    color: string,
    vin: string,
    vtype: VehicleType)

  /** The owner form, address fields included. */
  datatype OwnerForm = OwnerForm(
    firstName: string,
    lastName: string,
    email: string,
    phone: string,
    licenseNumber: string,
    street: string,
    city: string,
    state: string,
    zipCode: string,
    country: string)

  /** The vehicle form on mount: empty strings, the current year, Sedan. */
  function InitialVehicleForm(currentYear: int): (r: VehicleForm) {
    VehicleForm("", "", "", currentYear, "", "", Sedan)
  }

  const InitialOwnerForm := OwnerForm("", "", "", "", "", "", "", "", "", "")

  /** The text inputs of the vehicle form, by their `name` attribute. */
  datatype VehicleTextField = RegistrationNumberField | MakeField | ModelField | ColorField | VinField

  function VehicleText(vf: VehicleForm, fld: VehicleTextField): (r: string) {
    match fld
    case RegistrationNumberField => vf.registrationNumber
    case MakeField => vf.make
    case ModelField => vf.model
    case ColorField => vf.color
    case VinField => vf.vin
  }

  /** `handleVehicleDetailsChange` for a text input: only the named field changes. */
  function SetVehicleText(vf: VehicleForm, fld: VehicleTextField, value: string): (r: VehicleForm)
    ensures VehicleText(r, fld) == value
    ensures forall g :: g != fld ==> VehicleText(r, g) == VehicleText(vf, g)
    ensures r.year == vf.year && r.vtype == vf.vtype
  {
    match fld
    case RegistrationNumberField => vf.(registrationNumber := value)
    case MakeField => vf.(make := value)
    case ModelField => vf.(model := value)
    case ColorField => vf.(color := value)
    case VinField => vf.(vin := value)
  }

  /** `handleVehicleDetailsChange` for the year input: only the year changes. */
  function SetYear(vf: VehicleForm, year: int): (r: VehicleForm)
    ensures r.year == year && r.vtype == vf.vtype
    ensures forall g :: VehicleText(r, g) == VehicleText(vf, g)
  {
    vf.(year := year)
  }

  /** `handleTypeChange`: only the type changes. */
  function SetType(vf: VehicleForm, t: VehicleType): (r: VehicleForm)
    ensures r.vtype == t && r.year == vf.year
    ensures forall g :: VehicleText(r, g) == VehicleText(vf, g)
  {
    vf.(vtype := t)
  }

  /** The inputs of the owner form, by their `name` attribute. */
  datatype OwnerField =
    | FirstNameField | LastNameField | EmailField | PhoneField | LicenseNumberField
    | StreetField | CityField | StateField | ZipCodeField | CountryField

  function OwnerText(of: OwnerForm, fld: OwnerField): (r: string) {
    match fld
    case FirstNameField => of.firstName
    case LastNameField => of.lastName
    case EmailField => of.email
    case PhoneField => of.phone
    case LicenseNumberField => of.licenseNumber
    case StreetField => of.street
    case CityField => of.city
    case StateField => of.state
    case ZipCodeField => of.zipCode
    case CountryField => of.country
  }

  /** `handleOwnerDetailsChange`: only the named field changes. */
  function SetOwnerText(of: OwnerForm, fld: OwnerField, value: string): (r: OwnerForm)
    ensures OwnerText(r, fld) == value
    ensures forall g :: g != fld ==> OwnerText(r, g) == OwnerText(of, g)
  {
    match fld
    case FirstNameField => of.(firstName := value)
    case LastNameField => of.(lastName := value)
    case EmailField => of.(email := value)
    case PhoneField => of.(phone := value)
    case LicenseNumberField => of.(licenseNumber := value)
    case StreetField => of.(street := value)
    case CityField => of.(city := value)
    case StateField => of.(state := value)
    case ZipCodeField => of.(zipCode := value)
    case CountryField => of.(country := value)
  }

  /** The step-1 check: registration number, make, model and VIN are non-empty. */
  predicate VehicleReady(vf: VehicleForm) {
    vf.registrationNumber != "" && vf.make != "" && vf.model != "" && vf.vin != ""
  }

  /** The step-2 check: first and last name, email, phone and licence number are non-empty. */
  predicate OwnerReady(of: OwnerForm) {
    of.firstName != "" && of.lastName != "" && of.email != "" && of.phone != "" && of.licenseNumber != ""
  }

  /** `step` has the type `1 | 2 | 3`. */
  type StepNo = n: int | 1 <= n <= 3 witness 1

  datatype Wizard = Wizard(
    step: StepNo,
    loading: bool,
    complete: bool,
    vehicle: VehicleForm,
    owner: OwnerForm)

  function InitialWizard(currentYear: int): (r: Wizard) {
    Wizard(1, false, false, InitialVehicleForm(currentYear), InitialOwnerForm)
  }

  datatype ValidationError = MissingVehicleFields | MissingOwnerFields

  /** The toast raised for each rejected transition. */
  function ErrorMessage(e: ValidationError): (msg: string) {
    match e
    case MissingVehicleFields => "Please fill in all required vehicle fields"
    case MissingOwnerFields => "Please fill in all required owner fields"
  }

  /** What `handleNextStep` does: move one step, reject with a toast and keep
      the state, or (at step 3) hand over to `handleSubmit`. */
  datatype NextOutcome = Moved(next: Wizard) | Rejected(error: ValidationError) | SubmitRequested

  function NextStep(w: Wizard): (r: NextOutcome)
    ensures w.step == 1 ==> (r.Moved? <==> VehicleReady(w.vehicle)) && (r.Rejected? <==> !VehicleReady(w.vehicle))
    ensures w.step == 2 ==> (r.Moved? <==> OwnerReady(w.owner)) && (r.Rejected? <==> !OwnerReady(w.owner))
    ensures r.SubmitRequested? <==> w.step == 3
    ensures r.Moved? ==> r.next.step == w.step + 1 && r.next == w.(step := r.next.step)
    ensures r.Rejected? ==> r.error == (if w.step == 1 then MissingVehicleFields else MissingOwnerFields)
  {
    if w.step == 1 then
      if !VehicleReady(w.vehicle) then Rejected(MissingVehicleFields) else Moved(w.(step := 2))
    else if w.step == 2 then
      if !OwnerReady(w.owner) then Rejected(MissingOwnerFields) else Moved(w.(step := 3))
    else
      SubmitRequested
  }

  /** `handlePrevStep`: one step back, nothing at step 1. */
  function PrevStep(w: Wizard): (r: Wizard)
    ensures w.step == 1 ==> r == w
    ensures w.step > 1 ==> r.step == w.step - 1 && r == w.(step := r.step)
  {
    if w.step == 2 then w.(step := 1)
    else if w.step == 3 then w.(step := 2)
    else w
  }

  /** Back undoes a successful Next. */
  lemma BackUndoesNext(w: Wizard)
    requires NextStep(w).Moved?
    ensures PrevStep(NextStep(w).next) == w
  {
  }

  /** Next redoes a Back, since the forms that passed the check are unchanged. */
  lemma NextRedoesBack(w: Wizard)
    requires w.step > 1
    requires VehicleReady(w.vehicle) && (w.step == 3 ==> OwnerReady(w.owner))
    ensures NextStep(PrevStep(w)) == Moved(w)
  {
  }

  /** Colour, year and type play no part in the step-1 check. */
  lemma Step1IgnoresColorYearType(w: Wizard, color: string, year: int, t: VehicleType)
    requires w.step == 1
    ensures NextStep(w.(vehicle := w.vehicle.(color := color, year := year, vtype := t))).Moved?
            == NextStep(w).Moved?
  {
  }

  /** The address plays no part in the step-2 check. */
  lemma Step2IgnoresAddress(w: Wizard, street: string, city: string, state: string, zipCode: string, country: string)
    requires w.step == 2
    ensures NextStep(w.(owner := w.owner.(street := street, city := city, state := state, zipCode := zipCode, country := country))).Moved?
            == NextStep(w).Moved?
  {
  }

  /** The record `handleSubmit` builds: ids from `uuidv4`, status Pending,
      the date part of `toISOString()` as the registration date, and every
      other field copied from the two forms. */
  function BuildVehicle(vf: VehicleForm, of: OwnerForm, vehicleId: string, ownerId: string, today: string): (v: Vehicle) {
    Vehicle(
      vehicleId, vf.registrationNumber, vf.make, vf.model, vf.year, vf.color, vf.vin, vf.vtype,
      Pending, today,
      Owner(ownerId, of.firstName, of.lastName, of.email, of.phone,
            Address(of.street, of.city, of.state, of.zipCode, of.country),
            of.licenseNumber))
  }

  /** The vehicle form a record would be entered with. */
  function VehicleFormOf(v: Vehicle): (r: VehicleForm) {
    VehicleForm(v.registrationNumber, v.make, v.model, v.year, v.color, v.vin, v.vtype)
  }

  /** The owner form an owner would be entered with. */
  function OwnerFormOf(o: Owner): (r: OwnerForm) {
    OwnerForm(o.firstName, o.lastName, o.email, o.phone, o.licenseNumber,
              o.address.street, o.address.city, o.address.state, o.address.zipCode, o.address.country)
  }

  /** Nothing entered is lost: both forms can be read back from the new record. */
  lemma BuildVehicleRoundTrip(vf: VehicleForm, of: OwnerForm, vehicleId: string, ownerId: string, today: string)
    ensures VehicleFormOf(BuildVehicle(vf, of, vehicleId, ownerId, today)) == vf
    ensures OwnerFormOf(BuildVehicle(vf, of, vehicleId, ownerId, today).owner) == of
  {
  }

  /** The toast raised when the delayed submission completes. */
  const SuccessMessage := "Vehicle registered successfully!"

  /** The wizard together with the collection it appends to and the last
      toast raised, if any. */
  datatype Session = Session(wizard: Wizard, vehicles: seq<Vehicle>, toast: Option<string>)

  /** `handleSubmit`: set `loading`, build the record, push it onto the collection. */
  function HandleSubmit(s: Session, vehicleId: string, ownerId: string, today: string): (r: Session)
    ensures |r.vehicles| == |s.vehicles| + 1
    ensures r.vehicles[..|s.vehicles|] == s.vehicles
    ensures r.wizard == s.wizard.(loading := true) && r.toast == s.toast
    ensures var v := r.vehicles[|s.vehicles|];
            && v.status == Pending
            && v.id == vehicleId && v.owner.id == ownerId && v.registrationDate == today
            && VehicleFormOf(v) == s.wizard.vehicle && OwnerFormOf(v.owner) == s.wizard.owner
  {
    var v := BuildVehicle(s.wizard.vehicle, s.wizard.owner, vehicleId, ownerId, today);
    var vs := s.vehicles + [v];
    assert vs[..|s.vehicles|] == s.vehicles;
    s.(wizard := s.wizard.(loading := true), vehicles := vs)
  }

  /** The delayed callback of `handleSubmit`: loading ends, registration is complete. */
  function FinishSubmit(w: Wizard): (r: Wizard)
    ensures !r.loading && r.complete
    ensures r.step == w.step && r.vehicle == w.vehicle && r.owner == w.owner
  {
    w.(loading := false, complete := true)
  }

  /** `handleNextStep` itself, including its step-3 branch into `handleSubmit`:
      a rejection raises its toast and changes nothing else, a move changes
      the step only, and step 3 submits. */
  function HandleNextStep(s: Session, vehicleId: string, ownerId: string, today: string): (r: Session)
    ensures NextStep(s.wizard).Rejected? ==> r == s.(toast := Some(ErrorMessage(NextStep(s.wizard).error)))
    ensures NextStep(s.wizard).Moved? ==> r == s.(wizard := s.wizard.(step := s.wizard.step + 1))
    ensures s.wizard.step < 3 ==> r.vehicles == s.vehicles
    ensures s.wizard.step == 3 ==> r == HandleSubmit(s, vehicleId, ownerId, today)
    ensures s.wizard.step == 3 ==> |r.vehicles| == |s.vehicles| + 1 && r.wizard.loading
  {
    match NextStep(s.wizard)
    case Moved(w) => s.(wizard := w)
    case Rejected(e) => s.(toast := Some(ErrorMessage(e)))
    case SubmitRequested => HandleSubmit(s, vehicleId, ownerId, today)
  }

  /** A fresh id makes the new record findable by its id. */
  lemma SubmittedRecordIsFound(s: Session, vehicleId: string, ownerId: string, today: string)
    requires forall i :: 0 <= i < |s.vehicles| ==> s.vehicles[i].id != vehicleId
    ensures FindById(HandleSubmit(s, vehicleId, ownerId, today).vehicles, vehicleId)
            == Some(HandleSubmit(s, vehicleId, ownerId, today).vehicles[|s.vehicles|])
  {
    var vs := HandleSubmit(s, vehicleId, ownerId, today).vehicles;
    var r := FindById(vs, vehicleId);
    assert forall i :: 0 <= i < |s.vehicles| ==> vs[i] == s.vehicles[i];
  }

  predicate DistinctIds(c: seq<Vehicle>) {
    forall i, j :: 0 <= i < j < |c| ==> c[i].id != c[j].id
  }

  /** A fresh id keeps the vehicle ids of the collection pairwise distinct. */
  lemma SubmitKeepsIdsDistinct(s: Session, vehicleId: string, ownerId: string, today: string)
    requires DistinctIds(s.vehicles)
    requires forall i :: 0 <= i < |s.vehicles| ==> s.vehicles[i].id != vehicleId
    ensures DistinctIds(HandleSubmit(s, vehicleId, ownerId, today).vehicles)
  {
    var vs := HandleSubmit(s, vehicleId, ownerId, today).vehicles;
    forall i, j | 0 <= i < j < |vs|
      ensures vs[i].id != vs[j].id
    {
      assert vs[i] == s.vehicles[i];
      if j < |s.vehicles| {
        assert vs[j] == s.vehicles[j];
      }
    }
  }

  /** The registration date stored is the submission date, read back as a calendar date. */
  lemma SubmitDateIsToday(s: Session, vehicleId: string, ownerId: string, d: CalendarDate)
    requires Formattable(d)
    ensures var v := HandleSubmit(s, vehicleId, ownerId, FormatIsoDate(d)).vehicles[|s.vehicles|];
            && IsIsoDate(v.registrationDate) && ParseIsoDate(v.registrationDate) == Some(d)
            && (ValidDate(d) ==> IsCalendarDate(v.registrationDate))
  {
    ParseFormat(d);
  }

  /** The submit button is rendered at step 3 before completion and is
      disabled while `loading`. */
  predicate SubmitEnabled(w: Wizard) {
    !w.complete && w.step == 3 && !w.loading
  }

  /** The user's actions and the submission timer. The ids and the date a
      submission needs come with the press, in place of `uuidv4` and the clock. */
  datatype Event =
    | EditVehicleText(field: VehicleTextField, value: string)
    | EditYear(year: int)
    | ChangeType(vtype: VehicleType)
    | EditOwner(ownerField: OwnerField, text: string)
    | PressNext
    | PressBack
    | PressSubmit(vehicleId: string, ownerId: string, today: string)
    | TimerFires

  /** One event, delivered only to the controls the page renders: the forms
      before completion, the vehicle inputs at step 1, the owner inputs at
      step 2, Next at steps 1 and 2, Back at steps 2 and 3, and Submit at
      step 3 while not loading. The timer fires only while a submission is
      pending, which is while `loading` holds. */
  function Dispatch(s: Session, e: Event): (r: Session) {
    var w := s.wizard;
    match e
    case TimerFires => if w.loading then s.(wizard := FinishSubmit(w), toast := Some(SuccessMessage)) else s
    case _ =>
      if w.complete then s
      else match e
        case EditVehicleText(fld, value) =>
          if w.step == 1 then s.(wizard := w.(vehicle := SetVehicleText(w.vehicle, fld, value))) else s
        case EditYear(y) =>
          if w.step == 1 then s.(wizard := w.(vehicle := SetYear(w.vehicle, y))) else s
        case ChangeType(t) =>
          if w.step == 1 then s.(wizard := w.(vehicle := SetType(w.vehicle, t))) else s
        case EditOwner(fld, value) =>
          if w.step == 2 then s.(wizard := w.(owner := SetOwnerText(w.owner, fld, value))) else s
        case PressNext =>
          if w.step < 3 then
            match NextStep(w)
            case Moved(w') => s.(wizard := w')
            case Rejected(err) => s.(toast := Some(ErrorMessage(err)))
            case SubmitRequested => s
          else s
        case PressBack =>
          if w.step > 1 then s.(wizard := PrevStep(w)) else s
        case PressSubmit(vid, oid, today) =>
          if SubmitEnabled(w) then HandleSubmit(s, vid, oid, today) else s
        case TimerFires => s
  }

  /** The Next button the page renders at steps 1 and 2 runs `handleNextStep`. */
  lemma PressNextIsHandleNextStep(s: Session, vehicleId: string, ownerId: string, today: string)
    requires !s.wizard.complete && s.wizard.step < 3
    ensures Dispatch(s, PressNext) == HandleNextStep(s, vehicleId, ownerId, today)
  {
  }

  function Run(s: Session, events: seq<Event>): (r: Session)
    decreases |events|
  {
    if |events| == 0 then s else Run(Dispatch(s, events[0]), events[1..])
  }

  /** A record the wizard can append: Pending, with every checked field filled in. */
  predicate Registered(v: Vehicle) {
    && v.status == Pending
    && VehicleReady(VehicleFormOf(v))
    && OwnerReady(OwnerFormOf(v.owner))
  }

  /** What holds after any sequence of events started on the collection `c0`. */
  predicate Inv(s: Session, c0: seq<Vehicle>) {
    var w := s.wizard;
    && |s.vehicles| == |c0| + (if w.loading || w.complete then 1 else 0)
    && s.vehicles[..|c0|] == c0
    && !(w.loading && w.complete)
    && (w.step >= 2 ==> VehicleReady(w.vehicle))
    && (w.step == 3 ==> OwnerReady(w.owner))
    && (|s.vehicles| > |c0| ==> Registered(s.vehicles[|c0|]))
    && (w.complete ==> s.toast == Some(SuccessMessage))
  }

  lemma DispatchKeepsInv(s: Session, c0: seq<Vehicle>, e: Event)
    requires Inv(s, c0)
    ensures Inv(Dispatch(s, e), c0)
  {
    var w := s.wizard;
    if e.PressSubmit? && !w.complete && SubmitEnabled(w) {
      var r := HandleSubmit(s, e.vehicleId, e.ownerId, e.today);
      assert r.vehicles[..|c0|] == c0 by {
        assert r.vehicles[..|s.vehicles|] == s.vehicles;
      }
    }
  }

  lemma {:induction false} RunKeepsInv(s: Session, c0: seq<Vehicle>, events: seq<Event>)
    requires Inv(s, c0)
    ensures Inv(Run(s, events), c0)
    decreases |events|
  {
    if |events| > 0 {
      DispatchKeepsInv(s, c0, events[0]);
      RunKeepsInv(Dispatch(s, events[0]), c0, events[1..]);
    }
  }

  /** Whatever the user does, one wizard session appends at most one record,
      never touches the records already there, appends exactly one once
      registration is complete, and the record it appends is Pending with
      every checked field filled in. A completed session has raised the
      success toast last. */
  lemma AtMostOneRegistration(c0: seq<Vehicle>, currentYear: int, events: seq<Event>)
    ensures var s := Run(Session(InitialWizard(currentYear), c0, None), events);
            && |c0| <= |s.vehicles| <= |c0| + 1
            && s.vehicles[..|c0|] == c0
            && (s.wizard.complete ==> |s.vehicles| == |c0| + 1)
            && (|s.vehicles| == |c0| + 1 ==> Registered(s.vehicles[|c0|]))
            && (s.wizard.complete ==> s.toast == Some(SuccessMessage))
  {
    var s0 := Session(InitialWizard(currentYear), c0, None);
    assert c0[..|c0|] == c0;
    assert Inv(s0, c0);
    RunKeepsInv(s0, c0, events);
  }
}

/**
 * The event document: the shapes of an event, of its adult and child
 * registrations and of its waiver lists, and what the schema does to a new
 * event's input when it is created: applying the declared defaults,
 * trimming the trimmed text fields, dropping fields the schema does not
 * declare, and rejecting input without a required field.
 */
module EventSchema {
  import opened Wrappers
  import opened JsText

  /** A document id (a MongoDB ObjectId); only its identity matters here. */
  datatype ObjectId = ObjectId(value: nat)

  /** A date, as milliseconds since the epoch. */
  type Date = int

  /** A JavaScript number; NaN, the infinities and rounding are not modelled. */
  type Number = real

  /** A registrant's entry for one waiver: which waiver, and whether it is signed. */
  datatype WaiverEntry = WaiverEntry(waiverId: Option<ObjectId>, signed: bool)

  /** An adult registration: the user and their waiver entries. */
  datatype RegisteredUser = RegisteredUser(user: Option<ObjectId>, waiversSigned: seq<WaiverEntry>)

  /** A child registration: the parent user, the child (an entry of the
      parent's own list of children) and the child's waiver entries. */
  datatype RegisteredChild = RegisteredChild(parent: Option<ObjectId>, childId: Option<ObjectId>, waiversSigned: seq<WaiverEntry>)

  /** A waiver the event asks for, and whether it is required. */
  datatype TemplateEntry = TemplateEntry(waiverId: Option<ObjectId>, required: bool)

  /** A stored event. `description` may be absent; `stripePaymentId` is
      `None` for `null`. */
  datatype Event = Event(
    title: string,
    description: Option<string>,
    startDate: Date,
    endDate: Date,
    location: string,
    capacity: Number,
    registrationDeadline: Date,
    images: seq<string>,
    registeredUsers: seq<RegisteredUser>,
    registeredChildren: seq<RegisteredChild>,
    eventWaiverTemplates: seq<TemplateEntry>,
    fee: Number,
    stripePaymentId: Option<string>,
    isDraft: bool)

  // The input of a create: every field may be left out (`None`).

  datatype WaiverEntryInput = WaiverEntryInput(waiverId: Option<ObjectId>, signed: Option<bool>)

  datatype RegisteredUserInput = RegisteredUserInput(user: Option<ObjectId>, waiversSigned: Option<seq<WaiverEntryInput>>)

  datatype RegisteredChildInput = RegisteredChildInput(parent: Option<ObjectId>, childId: Option<ObjectId>, waiversSigned: Option<seq<WaiverEntryInput>>)

  datatype TemplateEntryInput = TemplateEntryInput(waiverId: Option<ObjectId>, required: Option<bool>)

  /** An uploaded waiver file, as the create form carries it. */
  datatype WaiverFile = WaiverFile(fileUrl: string, fileKey: string, fileName: string)

  datatype EventInput = EventInput(
    title: Option<string>,
    description: Option<string>,
    startDate: Option<Date>,
    endDate: Option<Date>,
    location: Option<string>,
    capacity: Option<Number>,
    registrationDeadline: Option<Date>,
    images: Option<seq<string>>,
    registeredUsers: Option<seq<RegisteredUserInput>>,
    registeredChildren: Option<seq<RegisteredChildInput>>,
    eventWaiverTemplates: Option<seq<TemplateEntryInput>>,
    fee: Option<Number>,
    stripePaymentId: Option<string>,
    isDraft: Option<bool>,
    waiverTemplates: Option<seq<WaiverFile>>)

  /** The required paths a create can find missing. */
  datatype RequiredPath = Title | StartDate | EndDate | Location | RegistrationDeadline

  /** A field with the `trim` setter. */
  function TrimField(v: Option<string>): Option<string> {
    match v
    case None => None
    case Some(s) => Some(Trim(s))
  }

  /** The `required` check on a string path: present and not empty (after the setters ran). */
  predicate HasText(v: Option<string>) {
    v.Some? && v.value != ""
  }

  /** The required paths `input` fails: a text path that is missing or only
      whitespace, a date path that is missing. */
  function MissingPaths(input: EventInput): (m: set<RequiredPath>)
    ensures Title in m <==> input.title.None? || BlankBetween(input.title.value, 0, |input.title.value|)
    ensures Location in m <==> input.location.None? || BlankBetween(input.location.value, 0, |input.location.value|)
    ensures StartDate in m <==> input.startDate.None?
    ensures EndDate in m <==> input.endDate.None?
    ensures RegistrationDeadline in m <==> input.registrationDeadline.None?
  {
    (if HasText(TrimField(input.title)) then {} else {Title})
    + (if input.startDate.Some? then {} else {StartDate})
    + (if input.endDate.Some? then {} else {EndDate})
    + (if HasText(TrimField(input.location)) then {} else {Location})
    + (if input.registrationDeadline.Some? then {} else {RegistrationDeadline})
  }

  /** A waiver entry, with `signed` defaulting to false. */
  function NormaliseWaiver(w: WaiverEntryInput): WaiverEntry {
    WaiverEntry(w.waiverId, w.signed.GetOr(false))
  }

  /** A waiver list, entry by entry; a missing list is empty. */
  function NormaliseWaivers(ws: Option<seq<WaiverEntryInput>>): (r: seq<WaiverEntry>)
    ensures ws.None? ==> r == []
    ensures ws.Some? ==> |r| == |ws.value|
    ensures ws.Some? ==> forall j :: 0 <= j < |r| ==> r[j].waiverId == ws.value[j].waiverId && r[j].signed == ws.value[j].signed.GetOr(false)
  {
    var s := ws.GetOr([]);
    seq(|s|, j requires 0 <= j < |s| => NormaliseWaiver(s[j]))
  }

  function NormaliseUser(u: RegisteredUserInput): RegisteredUser {
    RegisteredUser(u.user, NormaliseWaivers(u.waiversSigned))
  }

  function NormaliseChild(c: RegisteredChildInput): RegisteredChild {
    RegisteredChild(c.parent, c.childId, NormaliseWaivers(c.waiversSigned))
  }

  /** A template entry, with `required` defaulting to true. */
  function NormaliseTemplate(t: TemplateEntryInput): TemplateEntry {
    TemplateEntry(t.waiverId, t.required.GetOr(true))
  }

  /** `entries` is the stored form of the supplied waiver list `given`:
      entry for entry, the same waiver, signed only where the input says
      `signed: true`. */
  predicate WaiversFrom(entries: seq<WaiverEntry>, given: seq<WaiverEntryInput>) {
    && |entries| == |given|
    && forall j :: 0 <= j < |entries| ==> entries[j] == WaiverEntry(given[j].waiverId, given[j].signed == Some(true))
  }

  /** The adult registrations: none when left out; otherwise one record per
      supplied registration, in order, each with the supplied user and the
      stored form of its waiver list (empty when left out). */
  function NormaliseUsers(us: Option<seq<RegisteredUserInput>>): (r: seq<RegisteredUser>)
    ensures |r| == |us.GetOr([])|
    ensures forall k :: 0 <= k < |r| ==>
      && r[k].user == us.GetOr([])[k].user
      && WaiversFrom(r[k].waiversSigned, us.GetOr([])[k].waiversSigned.GetOr([]))
  {
    var s := us.GetOr([]);
    seq(|s|, k requires 0 <= k < |s| => NormaliseUser(s[k]))
  }

  /** The child registrations: none when left out; otherwise one record per
      supplied registration, in order, each with the supplied parent and
      child and the stored form of its waiver list (empty when left out). */
  function NormaliseChildren(cs: Option<seq<RegisteredChildInput>>): (r: seq<RegisteredChild>)
    ensures |r| == |cs.GetOr([])|
    ensures forall k :: 0 <= k < |r| ==>
      && r[k].parent == cs.GetOr([])[k].parent && r[k].childId == cs.GetOr([])[k].childId
      && WaiversFrom(r[k].waiversSigned, cs.GetOr([])[k].waiversSigned.GetOr([]))
  {
    var s := cs.GetOr([]);
    seq(|s|, k requires 0 <= k < |s| => NormaliseChild(s[k]))
  }

  /** The waiver templates: none when left out; otherwise one entry per
      supplied template, in order, with the supplied waiver and required
      unless the input says `required: false`. */
  function NormaliseTemplates(ts: Option<seq<TemplateEntryInput>>): (r: seq<TemplateEntry>)
    ensures |r| == |ts.GetOr([])|
    ensures forall k :: 0 <= k < |r| ==>
      r[k] == TemplateEntry(ts.GetOr([])[k].waiverId, ts.GetOr([])[k].required != Some(false))
  {
    var s := ts.GetOr([]);
    seq(|s|, k requires 0 <= k < |s| => NormaliseTemplate(s[k]))
  }

  /** What every stored event satisfies: its trimmed text fields are
      trimmed, and its required text fields are not empty. */
  predicate Normalised(e: Event) {
    && Trimmed(e.title) && e.title != ""
    && Trimmed(e.location) && e.location != ""
    && (e.description.Some? ==> Trimmed(e.description.value))
  }

  /** Creating an event document from `input`: it fails with the set of
      missing required paths, or it succeeds with a normalised event. */
  function CreateEvent(input: EventInput): (r: Result<Event, set<RequiredPath>>)
    ensures r.Failure? <==> MissingPaths(input) != {}
    ensures r.Failure? ==> r.error == MissingPaths(input)
    ensures r.Success? ==> Normalised(r.value)
  {
    var missing := MissingPaths(input);
    if missing != {} then Failure(missing)
    else
      Success(Event(
        title := Trim(input.title.value),
        description := TrimField(input.description),
        startDate := input.startDate.value,
        endDate := input.endDate.value,
        location := Trim(input.location.value),
        capacity := input.capacity.GetOr(0.0),
        registrationDeadline := input.registrationDeadline.value,
        images := input.images.GetOr([]),
        registeredUsers := NormaliseUsers(input.registeredUsers),
        registeredChildren := NormaliseChildren(input.registeredChildren),
        eventWaiverTemplates := NormaliseTemplates(input.eventWaiverTemplates),
        fee := input.fee.GetOr(0.0),
        stripePaymentId := input.stripePaymentId,
        isDraft := input.isDraft.GetOr(false)))
  }

  /** A created event takes the declared default for each field left out:
      capacity 0, fee 0, not a draft, no Stripe payment id (`null`), no
      images, no registrations and no waiver templates. */
  lemma CreateAppliesDefaults(input: EventInput)
    requires CreateEvent(input).Success?
    ensures var e := CreateEvent(input).value;
      && (input.capacity.None? ==> e.capacity == 0.0)
      && (input.fee.None? ==> e.fee == 0.0)
      && (input.isDraft.None? ==> !e.isDraft)
      && (input.stripePaymentId.None? ==> e.stripePaymentId.None?)
      && (input.description.None? ==> e.description.None?)
      && (input.images.None? ==> e.images == [])
      && (input.registeredUsers.None? ==> e.registeredUsers == [])
      && (input.registeredChildren.None? ==> e.registeredChildren == [])
      && (input.eventWaiverTemplates.None? ==> e.eventWaiverTemplates == [])
  {
  }

  /** A created event keeps each supplied field: the dates, numbers, flags
      and lists as given, and the text fields trimmed. */
  lemma CreateKeepsSupplied(input: EventInput)
    requires CreateEvent(input).Success?
    ensures var e := CreateEvent(input).value;
      && Some(e.startDate) == input.startDate && Some(e.endDate) == input.endDate
      && Some(e.registrationDeadline) == input.registrationDeadline
      && e.title == Trim(input.title.value) && e.location == Trim(input.location.value)
      && (input.description.Some? ==> e.description == Some(Trim(input.description.value)))
      && (input.capacity.Some? ==> e.capacity == input.capacity.value)
      && (input.fee.Some? ==> e.fee == input.fee.value)
      && (input.isDraft.Some? ==> e.isDraft == input.isDraft.value)
      && e.stripePaymentId == input.stripePaymentId
      && (input.images.Some? ==> e.images == input.images.value)
      && |e.registeredUsers| == |input.registeredUsers.GetOr([])|
      && |e.registeredChildren| == |input.registeredChildren.GetOr([])|
      && |e.eventWaiverTemplates| == |input.eventWaiverTemplates.GetOr([])|
  {
  }

  /** Each registration record of a created event, adult or child, is the
      supplied one: the same user (or parent and child), and a waiver list
      of the supplied length whose entries name the supplied waivers and are
      signed only when the input said so. An entry whose `signed` is left
      out is unsigned; a registration whose list is left out has none. */
  lemma CreateSignedDefaultsFalse(input: EventInput, k: int)
    requires CreateEvent(input).Success?
    ensures var e := CreateEvent(input).value;
      && (0 <= k < |e.registeredUsers| ==>
            var u := input.registeredUsers.value[k];
            && e.registeredUsers[k].user == u.user
            && |e.registeredUsers[k].waiversSigned| == |u.waiversSigned.GetOr([])|
            && forall j :: 0 <= j < |e.registeredUsers[k].waiversSigned| ==>
                 var w := u.waiversSigned.value[j];
                 e.registeredUsers[k].waiversSigned[j] == WaiverEntry(w.waiverId, w.signed == Some(true)))
      && (0 <= k < |e.registeredChildren| ==>
            var c := input.registeredChildren.value[k];
            && e.registeredChildren[k].parent == c.parent && e.registeredChildren[k].childId == c.childId
            && |e.registeredChildren[k].waiversSigned| == |c.waiversSigned.GetOr([])|
            && forall j :: 0 <= j < |e.registeredChildren[k].waiversSigned| ==>
                 var w := c.waiversSigned.value[j];
                 e.registeredChildren[k].waiversSigned[j] == WaiverEntry(w.waiverId, w.signed == Some(true)))
  {
  }

  /** Every waiver template of a created event names the supplied waiver and
      is required unless the input said otherwise. */
  lemma CreateRequiredDefaultsTrue(input: EventInput, k: int)
    requires CreateEvent(input).Success? && 0 <= k < |CreateEvent(input).value.eventWaiverTemplates|
    ensures var t := input.eventWaiverTemplates.value[k];
      CreateEvent(input).value.eventWaiverTemplates[k] == TemplateEntry(t.waiverId, t.required != Some(false))
  {
  }

  /** Fields the schema does not declare, such as the uploaded waiver
      files, are dropped: they do not affect the created event. */
  lemma CreateIgnoresUndeclared(input: EventInput, files: Option<seq<WaiverFile>>)
    ensures CreateEvent(input.(waiverTemplates := files)) == CreateEvent(input)
  {
  }

  // The input that supplies every field of a stored event as it stands.

  function WaiversAsInput(ws: seq<WaiverEntry>): seq<WaiverEntryInput> {
    seq(|ws|, j requires 0 <= j < |ws| => WaiverEntryInput(ws[j].waiverId, Some(ws[j].signed)))
  }

  function UserAsInput(u: RegisteredUser): RegisteredUserInput {
    RegisteredUserInput(u.user, Some(WaiversAsInput(u.waiversSigned)))
  }

  function ChildAsInput(c: RegisteredChild): RegisteredChildInput {
    RegisteredChildInput(c.parent, c.childId, Some(WaiversAsInput(c.waiversSigned)))
  }

  function TemplateAsInput(t: TemplateEntry): TemplateEntryInput {
    TemplateEntryInput(t.waiverId, Some(t.required))
  }

  function AsInput(e: Event): EventInput {
    EventInput(
      title := Some(e.title),
      description := e.description,
      startDate := Some(e.startDate),
      endDate := Some(e.endDate),
      location := Some(e.location),
      capacity := Some(e.capacity),
      registrationDeadline := Some(e.registrationDeadline),
      images := Some(e.images),
      registeredUsers := Some(seq(|e.registeredUsers|, k requires 0 <= k < |e.registeredUsers| => UserAsInput(e.registeredUsers[k]))),
      registeredChildren := Some(seq(|e.registeredChildren|, k requires 0 <= k < |e.registeredChildren| => ChildAsInput(e.registeredChildren[k]))),
      eventWaiverTemplates := Some(seq(|e.eventWaiverTemplates|, k requires 0 <= k < |e.eventWaiverTemplates| => TemplateAsInput(e.eventWaiverTemplates[k]))),
      fee := Some(e.fee),
      stripePaymentId := e.stripePaymentId,
      isDraft := Some(e.isDraft),
      waiverTemplates := None)
  }

  /** Re-creating a normalised event from its own fields gives it back
      unchanged: the defaults, the trims and the required checks have
      nothing left to do. */
  lemma CreateOfNormalised(e: Event)
    requires Normalised(e)
    ensures CreateEvent(AsInput(e)) == Success(e)
  {
    var input := AsInput(e);
    TrimOfTrimmed(e.title);
    TrimOfTrimmed(e.location);
    if e.description.Some? { TrimOfTrimmed(e.description.value); }
    assert MissingPaths(input) == {};
    var r := CreateEvent(input).value;
    forall k | 0 <= k < |e.registeredUsers| ensures r.registeredUsers[k] == e.registeredUsers[k] {
      WaiversRoundTrip(e.registeredUsers[k].waiversSigned);
    }
    forall k | 0 <= k < |e.registeredChildren| ensures r.registeredChildren[k] == e.registeredChildren[k] {
      WaiversRoundTrip(e.registeredChildren[k].waiversSigned);
    }
    assert r.registeredUsers == e.registeredUsers;
    assert r.registeredChildren == e.registeredChildren;
    assert r.eventWaiverTemplates == e.eventWaiverTemplates;
  }

  lemma WaiversRoundTrip(ws: seq<WaiverEntry>)
    ensures NormaliseWaivers(Some(WaiversAsInput(ws))) == ws
  {
    assert forall j :: 0 <= j < |ws| ==> NormaliseWaivers(Some(WaiversAsInput(ws)))[j] == ws[j];
  }

  /** Creation is idempotent: creating again from a created event's fields
      (title, description and location already trimmed) gives the same event. */
  lemma CreateIdempotent(input: EventInput)
    requires CreateEvent(input).Success?
    ensures CreateEvent(AsInput(CreateEvent(input).value)) == CreateEvent(input)
  {
    CreateOfNormalised(CreateEvent(input).value);
  }
}

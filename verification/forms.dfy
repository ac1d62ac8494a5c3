/** The submit handlers of the two forms (js/app.js:97-143 and 168-191) as pure
    functions from the submitted field values and the store to an outcome and the
    next store. The browser's own constraint validation is an input bit, and the
    submission time is an opaque input. */
module Forms {
  import opened Wrappers
  import opened Text
  import opened Validators
  import opened Storage

  /** The consultation form's fields as the browser holds them. */
  datatype ConsultFields = ConsultFields(
    role: string, channel: string, contact: string, time: string, comment: string)

  /** The demo form's fields as the browser holds them. */
  datatype DemoFields = DemoFields(name: string, email: string, status: string, message: string)

  /** Why a submission was refused. */
  datatype Rejection =
    | NativeInvalid       // the browser's constraint validation failed
    | BadTelegramHandle   // channel "telegram", contact is not a username
    | BadEmail            // channel "email", contact is not an address

  /** A contact acceptable for its channel: a username for Telegram, an address
      for email, anything for a channel without its own rule. */
  predicate ContactFits(channel: string, contact: string) {
    (channel == "telegram" ==> IsTelegramUsername(contact))
    && (channel == "email" ==> IsEmail(contact))
  }

  /** What a submission leaves behind: the stored request passed every check and
      its free text carries no surrounding white space. */
  predicate ValidConsult(p: ConsultRequest) {
    ContactFits(p.channel, p.contact) && IsTrimmed(p.contact) && IsTrimmed(p.comment)
  }

  predicate ValidDemo(p: DemoRequest) {
    IsTrimmed(p.name) && IsTrimmed(p.email) && IsTrimmed(p.message)
  }

  /** Each form's slot holds, if anything readable, a valid request of that form. */
  predicate WellFormed(store: Store) {
    && (Load(store, ConsultKey).Some? ==>
          Load(store, ConsultKey).value.ConsultPayload? && ValidConsult(Load(store, ConsultKey).value.consult))
    && (Load(store, DemoKey).Some? ==>
          Load(store, DemoKey).value.DemoPayload? && ValidDemo(Load(store, DemoKey).value.demo))
  }

  /** The consultation submit handler. It refuses, leaving the store as it was,
      when the browser's validation fails or the trimmed contact does not fit the
      channel; otherwise it stores a request with the trimmed contact and comment
      and the other fields as entered, under the consultation key only. */
  function ConsultSubmit(nativeValid: bool, f: ConsultFields, createdAt: string, store: Store)
    : (out: (Result<ConsultRequest, Rejection>, Store))
    ensures out.0.Failure? ==> out.1 == store
    ensures out.0 == Failure(NativeInvalid) <==> !nativeValid
    ensures out.0 == Failure(BadTelegramHandle) <==>
              nativeValid && f.channel == "telegram" && !IsTelegramUsername(Trim(f.contact))
    ensures out.0 == Failure(BadEmail) <==>
              nativeValid && f.channel == "email" && !IsEmail(Trim(f.contact))
    ensures out.0.Success? <==> nativeValid && ContactFits(f.channel, Trim(f.contact))
    ensures out.0.Success? ==>
              var p := out.0.value;
              && p == ConsultRequest(f.role, f.channel, Trim(f.contact), f.time, Trim(f.comment), createdAt)
              && ValidConsult(p)
              && Load(out.1, ConsultKey) == Some(ConsultPayload(p))
              && out.1.Keys == store.Keys + {ConsultKey}
              && forall k :: k in store && k != ConsultKey ==> out.1[k] == store[k]
  {
    if !nativeValid then (Failure(NativeInvalid), store)
    else
      var contact := Trim(f.contact);
      if f.channel == "telegram" && !IsTelegramUsername(contact) then (Failure(BadTelegramHandle), store)
      else if f.channel == "email" && !IsEmail(contact) then (Failure(BadEmail), store)
      else
        var p := ConsultRequest(f.role, f.channel, contact, f.time, Trim(f.comment), createdAt);
        (Success(p), Save(store, ConsultKey, ConsultPayload(p)))
  }

  /** The demo submit handler: only the browser's validation can refuse it. The
      stored request has the name, email and message trimmed and the status as
      entered, under the demo key only. */
  function DemoSubmit(nativeValid: bool, f: DemoFields, createdAt: string, store: Store)
    : (out: (Result<DemoRequest, Rejection>, Store))
    ensures out.0.Failure? <==> !nativeValid
    ensures out.0.Failure? ==> out.0.error == NativeInvalid && out.1 == store
    ensures out.0.Success? ==>
              var p := out.0.value;
              && p == DemoRequest(Trim(f.name), Trim(f.email), f.status, Trim(f.message), createdAt)
              && ValidDemo(p)
              && Load(out.1, DemoKey) == Some(DemoPayload(p))
              && out.1.Keys == store.Keys + {DemoKey}
              && forall k :: k in store && k != DemoKey ==> out.1[k] == store[k]
  {
    if !nativeValid then (Failure(NativeInvalid), store)
    else
      var p := DemoRequest(Trim(f.name), Trim(f.email), f.status, Trim(f.message), createdAt);
      (Success(p), Save(store, DemoKey, DemoPayload(p)))
  }

  /** A consultation submit does not touch the demo slot. */
  lemma ConsultSubmitKeepsDemoSlot(nv: bool, f: ConsultFields, at: string, store: Store)
    ensures Load(ConsultSubmit(nv, f, at, store).1, DemoKey) == Load(store, DemoKey)
  {
    KeysDistinct();
    var out := ConsultSubmit(nv, f, at, store);
    if out.0.Success? {
      assert DemoKey in out.1 <==> DemoKey in store;
      assert DemoKey in store ==> out.1[DemoKey] == store[DemoKey];
    }
  }

  /** A demo submit does not touch the consultation slot. */
  lemma DemoSubmitKeepsConsultSlot(nv: bool, f: DemoFields, at: string, store: Store)
    ensures Load(DemoSubmit(nv, f, at, store).1, ConsultKey) == Load(store, ConsultKey)
  {
    KeysDistinct();
    var out := DemoSubmit(nv, f, at, store);
    if out.0.Success? {
      assert ConsultKey in out.1 <==> ConsultKey in store;
      assert ConsultKey in store ==> out.1[ConsultKey] == store[ConsultKey];
    }
  }

  /** Submitting keeps the store well formed: nothing invalid is ever stored. */
  lemma ConsultSubmitPreservesWellFormed(nv: bool, f: ConsultFields, at: string, store: Store)
    requires WellFormed(store)
    ensures WellFormed(ConsultSubmit(nv, f, at, store).1)
  {
    KeysDistinct();
  }

  lemma DemoSubmitPreservesWellFormed(nv: bool, f: DemoFields, at: string, store: Store)
    requires WellFormed(store)
    ensures WellFormed(DemoSubmit(nv, f, at, store).1)
  {
    KeysDistinct();
  }

  /** Only the trimmed contact and comment matter to the consultation handler. */
  lemma ConsultSubmitSeesTrimmed(nv: bool, f: ConsultFields, g: ConsultFields, at: string, store: Store)
    requires f.role == g.role && f.channel == g.channel && f.time == g.time
    requires Trim(f.contact) == Trim(g.contact) && Trim(f.comment) == Trim(g.comment)
    ensures ConsultSubmit(nv, f, at, store) == ConsultSubmit(nv, g, at, store)
  {
  }

  /** Submitting the stored request again changes nothing: it is already trimmed
      and already valid, and it replaces itself. */
  lemma ConsultResubmitStable(f: ConsultFields, at: string, store: Store)
    requires ConsultSubmit(true, f, at, store).0.Success?
    ensures var first := ConsultSubmit(true, f, at, store);
            var p := first.0.value;
            ConsultSubmit(true, ConsultFields(p.role, p.channel, p.contact, p.time, p.comment), at, first.1)
              == first
  {
    var first := ConsultSubmit(true, f, at, store);
    var p := first.0.value;
    var again := ConsultFields(p.role, p.channel, p.contact, p.time, p.comment);
    TrimIdempotent(f.contact);
    TrimIdempotent(f.comment);
    ConsultSubmitSeesTrimmed(true, again, f, at, first.1);
    SaveOverwrites(store, ConsultKey, ConsultPayload(p), ConsultPayload(p));
  }

  /** The demo form performs no structural check of the email address: `a@b`,
      which the browser's email input accepts, is stored although `isEmail`
      would refuse it. */
  lemma DemoSkipsEmailCheck(f: DemoFields, at: string, store: Store)
    requires f.email == "a@b"
    ensures !IsEmail(Trim(f.email))
    ensures var out := DemoSubmit(true, f, at, store);
            out.0.Success? && out.0.value.email == f.email
  {
    DotlessHostRejected(f.email);
    TrimKeepsTrimmed(f.email);
  }

  /** A valid Telegram username is stored exactly as entered, `@` included. */
  lemma ConsultStoresUsernameVerbatim(f: ConsultFields, at: string, store: Store)
    requires f.channel == "telegram" && IsTelegramUsername(f.contact)
    ensures var out := ConsultSubmit(true, f, at, store);
            out.0.Success? && out.0.value.contact == f.contact
            && Load(out.1, ConsultKey) == Some(ConsultPayload(out.0.value))
  {
    TelegramUsernameTrimmed(f.contact);
    TrimKeepsTrimmed(f.contact);
  }

  /** For example, a Telegram booking with `@joe_99` is stored with that
      contact. */
  lemma ConsultTelegramExample(f: ConsultFields, at: string, store: Store)
    requires f.channel == "telegram" && f.contact == "@joe_99"
    ensures var out := ConsultSubmit(true, f, at, store);
            out.0.Success? && out.0.value.channel == "telegram" && out.0.value.contact == "@joe_99"
  {
    TelegramExamplesAccepted();
    ConsultStoresUsernameVerbatim(f, at, store);
  }

  /** One user action on the page: a submit of either form. */
  datatype Event =
    | SubmitConsult(nativeValid: bool, consultFields: ConsultFields, consultAt: string)
    | SubmitDemo(nativeValid: bool, demoFields: DemoFields, demoAt: string)

  function Step(store: Store, e: Event): Store {
    match e
    case SubmitConsult(nv, f, at) => ConsultSubmit(nv, f, at, store).1
    case SubmitDemo(nv, f, at) => DemoSubmit(nv, f, at, store).1
  }

  /** The store after a sequence of submits, in order. */
  function Replay(store: Store, events: seq<Event>): Store
    decreases |events|
  {
    if |events| == 0 then store else Replay(Step(store, events[0]), events[1..])
  }

  /** Whatever the users submit, starting from a well-formed store (an empty one,
      say) the store stays well formed: invalid data is never persisted. */
  lemma {:induction false} ReplayPreservesWellFormed(store: Store, events: seq<Event>)
    requires WellFormed(store)
    ensures WellFormed(Replay(store, events))
    decreases |events|
  {
    if |events| > 0 {
      match events[0] {
        case SubmitConsult(nv, f, at) => ConsultSubmitPreservesWellFormed(nv, f, at, store);
        case SubmitDemo(nv, f, at) => DemoSubmitPreservesWellFormed(nv, f, at, store);
      }
      ReplayPreservesWellFormed(Step(store, events[0]), events[1..]);
    }
  }

  /** An empty store is well formed. */
  lemma EmptyWellFormed()
    ensures WellFormed(map[])
  {
  }
}

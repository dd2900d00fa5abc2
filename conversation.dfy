/**
 * The conversation state machine of the booking flow (app/hoh_service.py).
 *
 * Every outbound prompt records in the conversation which kind of reply it waits for
 * (`expected_input`) and which prompt was last sent (`last_prompt_key`). The guard at the top of
 * `handle_whatsapp_webhook` reads that state and either ignores the inbound message, answers it
 * with one corrective text and stops, or lets it through, turning a free-text reply that holds
 * exactly one phone number into a contact share first.
 */
module Conversation {
  import opened Wrappers
  import opened Text
  import opened Inbound

  /**
   * A text column of a conversation as the dict holds it: no such key, the key with a NULL value
   * (a row inserted without the column and read back with `SELECT *`), or a value.
   */
  datatype Column = Absent | Null | Value(text: string)

  /** The state columns of a conversation; a NULL `last_prompt_key` and a missing one both read as `None`. */
  datatype ConvState = ConvState(expectedInput: Column, lastPromptKey: Option<string>)

  /**
   * `conversation.get("expected_input", "interactive")`: the default only when the key is missing;
   * a NULL column reads as `None`, which no rule of the guard matches.
   */
  function ExpectedInput(c: ConvState): (e: Option<string>)
    ensures c.expectedInput.Absent? ==> e == Some("interactive")
    ensures c.expectedInput.Null? <==> e.None?
    ensures c.expectedInput.Value? ==> e == Some(c.expectedInput.text)
  {
    match c.expectedInput
    case Absent => Some("interactive")
    case Null => None
    case Value(e) => Some(e)
  }

  /** The outbound prompts that record a state. */
  datatype Prompt = InitPrompt | RangesPrompt | HalvesPrompt | ConfirmPrompt | NotSurePrompt | ContactPrompt

  /** The (expected_input, last_prompt_key) pair each sender writes after it has sent its prompt. */
  function PromptState(p: Prompt): ConvState {
    match p
    case InitPrompt => ConvState(Value("interactive"), Some("init"))
    case RangesPrompt => ConvState(Value("interactive"), Some("ranges"))
    case HalvesPrompt => ConvState(Value("interactive"), Some("halves"))
    case ConfirmPrompt => ConvState(Value("interactive"), Some("confirm"))
    case NotSurePrompt => ConvState(Value("paused"), Some("not_sure"))
    case ContactPrompt => ConvState(Value("contact_required"), Some("contact_prompt"))
  }

  /** The conversation table, keyed by conversation id. */
  class ConversationStore {
    var states: map<int, ConvState>

    constructor()
      ensures states == map[]
    {
      states := map[];
    }

    /** `update_conversation_state`: overwrite the two state columns of one conversation. */
    method UpdateState(conversationId: int, expected: string, key: string)
      modifies this
      ensures states == old(states)[conversationId := ConvState(Value(expected), Some(key))]
    {
      states := states[conversationId := ConvState(Value(expected), Some(key))];
    }

    /**
     * The state write at the end of each sender (`send_init_for_event`, `send_ranges_for_event`,
     * `send_halves_for_event_range`, `send_confirm_for_slot`, `_handle_not_sure`,
     * `_handle_not_contact`): the conversation then waits for what the prompt asks for.
     */
    method RecordPrompt(conversationId: int, p: Prompt)
      modifies this
      ensures states == old(states)[conversationId := PromptState(p)]
      ensures conversationId in states && states[conversationId].expectedInput.Value?
    {
      match p {
        case InitPrompt => UpdateState(conversationId, "interactive", "init");
        case RangesPrompt => UpdateState(conversationId, "interactive", "ranges");
        case HalvesPrompt => UpdateState(conversationId, "interactive", "halves");
        case ConfirmPrompt => UpdateState(conversationId, "interactive", "confirm");
        case NotSurePrompt => UpdateState(conversationId, "paused", "not_sure");
        case ContactPrompt => UpdateState(conversationId, "contact_required", "contact_prompt");
      }
    }
  }

  /** What the guard sees of an inbound message: the payload, the stripped body and the button or list value. */
  datatype Message = Message(payload: Payload, body: string, interactiveValue: string)

  /** A button or list reply: a selection value, or a Twilio message type naming one. */
  predicate IsInteractive(m: Message) {
    var kind := Lower(Get(m.payload, "MessageType"));
    m.interactiveValue != "" || kind == "button" || kind == "list" || kind == "interactive"
  }

  /** `is_text_only`: not interactive, not a contact share, and a non-empty body. */
  predicate IsTextOnly(m: Message) {
    !IsInteractive(m) && !IsContactShare(m.payload) && m.body != ""
  }

  const BUTTONS_HINT: string := "נא להשתמש בכפתורים"
  const CONFIRM_HINT: string := "נא לאשר או לחזור אחורה"
  const CONTACT_HINT: string := "יש לצרף איש קשר או לכתוב שם מלא וטלפון בהודעה אחת"

  /**
   * How the guard ends: the message is ignored; it is refused with at most one corrective
   * text (none when the sender's contact record is missing); or it goes on to the normal flow
   * with the payload as the guard left it.
   */
  datatype GuardOutcome = Ignored | Refused(reply: Option<string>) | Proceed(payload: Payload)

  /** The corrective text for a text reply to a button prompt. */
  function ButtonHint(c: ConvState): string {
    if c.lastPromptKey == Some("confirm") then CONFIRM_HINT else BUTTONS_HINT
  }

  /** The payload a single phone turns into: a contact share named `name` (the body's first word). */
  function SyntheticContact(payload: Payload, phone: string, name: string): (q: Payload)
    ensures CONTACT_PHONE_KEY in q && q[CONTACT_PHONE_KEY] == phone
    ensures CONTACT_NAME_KEY in q && q[CONTACT_NAME_KEY] == name
    ensures forall k :: k in payload && k != CONTACT_PHONE_KEY && k != CONTACT_NAME_KEY ==> k in q && q[k] == payload[k]
  {
    assert CONTACT_PHONE_KEY != CONTACT_NAME_KEY by {
      assert CONTACT_PHONE_KEY[12] == 'P' && CONTACT_NAME_KEY[12] == 'N';
    }
    payload[CONTACT_PHONE_KEY := phone][CONTACT_NAME_KEY := name]
  }

  /** The guard block of `handle_whatsapp_webhook`. */
  function Guard(c: ConvState, m: Message, contactFound: bool): (g: GuardOutcome)
    ensures ExpectedInput(c) == Some("paused") <==> g.Ignored?
    ensures ExpectedInput(c) == Some("interactive") && IsTextOnly(m) ==>
      g == Refused(if contactFound then Some(ButtonHint(c)) else None)
    ensures ExpectedInput(c) == Some("contact_required") && IsContactShare(m.payload) ==> g == Proceed(m.payload)
    ensures ExpectedInput(c) == Some("contact_required") && IsTextOnly(m) ==>
      (g.Refused? <==> |ExtractedPhones(m.body)| != 1)
      && (g.Refused? ==> g.reply == (if contactFound then Some(CONTACT_HINT) else None))
    ensures ExpectedInput(c) == Some("contact_required") && IsTextOnly(m) && |ExtractedPhones(m.body)| == 1 ==>
      Words(m.body) != [] && g == Proceed(SyntheticContact(m.payload, ExtractedPhones(m.body)[0], Words(m.body)[0]))
    ensures ExpectedInput(c).None? ==> g == Proceed(m.payload)
    ensures g.Refused? ==> IsTextOnly(m)
    ensures g.Proceed? && g.payload != m.payload ==> ExpectedInput(c) == Some("contact_required") && IsTextOnly(m)
  {
    var expected := ExpectedInput(c);
    if expected == Some("paused") then Ignored
    else if expected == Some("interactive") && IsTextOnly(m) then
      Refused(if contactFound then Some(ButtonHint(c)) else None)
    else if expected == Some("contact_required") && !IsContactShare(m.payload) && IsTextOnly(m) then
      var phones := ExtractedPhones(m.body);
      if |phones| != 1 then Refused(if contactFound then Some(CONTACT_HINT) else None)
      else
        PhoneMeansWord(m.body);
        Proceed(SyntheticContact(m.payload, phones[0], Words(m.body)[0]))
    else Proceed(m.payload)
  }

  /** The rewritten payload of the single-phone case is a contact share, so the flow treats it as one. */
  lemma SinglePhoneIsShare(c: ConvState, m: Message, contactFound: bool)
    requires ExpectedInput(c) == Some("contact_required") && IsTextOnly(m) && |ExtractedPhones(m.body)| == 1
    ensures Guard(c, m, contactFound).Proceed? && IsContactShare(Guard(c, m, contactFound).payload)
  {
    PhoneMeansWord(m.body);
    PhoneFieldMakesShare(m.payload, ExtractedPhones(m.body)[0], CONTACT_NAME_KEY, Words(m.body)[0]);
  }

  /** After the not-sure follow-up the conversation is paused: every later message is ignored. */
  lemma PausedIgnoresAll(m: Message, contactFound: bool)
    ensures Guard(PromptState(NotSurePrompt), m, contactFound) == Ignored
  {
    assert ExpectedInput(PromptState(NotSurePrompt)) == Some("paused");
  }

  /**
   * After a button prompt (INIT, ranges, halves, confirmation) a text reply gets the button hint,
   * which asks to confirm or go back after the confirmation prompt, and anything else goes on
   * unchanged.
   */
  lemma ButtonPromptsGuard(p: Prompt, m: Message)
    requires p in {InitPrompt, RangesPrompt, HalvesPrompt, ConfirmPrompt}
    ensures IsTextOnly(m) ==>
      Guard(PromptState(p), m, true) == Refused(Some(if p == ConfirmPrompt then CONFIRM_HINT else BUTTONS_HINT))
    ensures !IsTextOnly(m) ==> Guard(PromptState(p), m, true) == Proceed(m.payload)
  {
  }

  /**
   * After the contact request, a share passes unchanged and a text without digits is refused
   * with the instructions again.
   */
  lemma ContactPromptGuard(m: Message, contactFound: bool)
    ensures IsContactShare(m.payload) ==> Guard(PromptState(ContactPrompt), m, contactFound) == Proceed(m.payload)
    ensures IsTextOnly(m) && NoDigits(m.body) ==>
      Guard(PromptState(ContactPrompt), m, contactFound) == Refused(if contactFound then Some(CONTACT_HINT) else None)
  {
    if IsTextOnly(m) && NoDigits(m.body) {
      NoDigitsNoPhones(m.body);
    }
  }

  /** A conversation dict without the state key behaves like one waiting for a button. */
  lemma FreshIsInteractive(m: Message, lastPromptKey: Option<string>, contactFound: bool)
    ensures Guard(ConvState(Absent, lastPromptKey), m, contactFound)
      == Guard(ConvState(Value("interactive"), lastPromptKey), m, contactFound)
  {
  }

  /**
   * A stored conversation whose `expected_input` is NULL (never prompted) matches no rule of the
   * guard: every message, text replies included, goes on unchanged.
   */
  lemma NullStatePassesAll(m: Message, lastPromptKey: Option<string>, contactFound: bool)
    ensures Guard(ConvState(Null, lastPromptKey), m, contactFound) == Proceed(m.payload)
  {
  }

  /** The payload the webhook handler works on; the guard may rewrite it in place. */
  class WebhookPayload {
    var fields: Payload

    constructor(fields: Payload)
      ensures this.fields == fields
    {
      this.fields := fields;
    }
  }

  /**
   * The guard as the handler runs it: returns whether the handler goes on, and the corrective
   * text it sends when it stops; the single-phone case writes the contact fields into the payload.
   */
  method RunGuard(p: WebhookPayload, c: ConvState, body: string, interactiveValue: string, contactFound: bool)
    returns (goOn: bool, reply: Option<string>)
    modifies p
    ensures var g := Guard(c, Message(old(p.fields), body, interactiveValue), contactFound);
      && (goOn <==> g.Proceed?)
      && (goOn ==> p.fields == g.payload && reply.None?)
      && (g.Refused? ==> reply == g.reply)
      && (g.Ignored? ==> reply.None?)
      && (!goOn ==> p.fields == old(p.fields))
  {
    var m := Message(p.fields, body, interactiveValue);
    var isInteractive := IsInteractive(m);
    var isContactShare := IsContactShare(p.fields);
    var isTextOnly := !isInteractive && !isContactShare && body != "";
    var expected := ExpectedInput(c);
    reply := None;
    if expected == Some("paused") {
      return false, None;
    }
    if expected == Some("interactive") && isTextOnly {
      if contactFound {
        reply := Some(ButtonHint(c));
      }
      return false, reply;
    }
    if expected == Some("contact_required") {
      if isContactShare {
      } else if isTextOnly {
        var phones := ExtractPhoneNumbers(body);
        if |phones| == 0 || |phones| >= 2 {
          if contactFound {
            reply := Some(CONTACT_HINT);
          }
          return false, reply;
        }
        PhoneMeansWord(body);
        p.fields := p.fields[CONTACT_PHONE_KEY := phones[0]];
        p.fields := p.fields[CONTACT_NAME_KEY := Words(body)[0]];
      }
    }
    return true, None;
  }
}

/**
 * The outgoing side of the Twilio client (app/twilio_client.py): address normalisation, the
 * rule that never sends a bare acknowledgement, and the request `send_text` and
 * `send_content_message` hand to `client.messages.create`. The request is returned as a value
 * instead of being sent; the environment (default messaging-service SID, status-callback URL)
 * comes in as parameters.
 */
module Twilio {
  import opened Wrappers
  import opened Text

  /** The exceptions the client raises before any request is made. */
  datatype SendError = ValueError | RuntimeError

  /** What a message carries: free text, or a content template with its JSON variables. */
  datatype Content = Body(text: string) | Template(contentSid: string, variablesJson: string)

  /** The keyword arguments of `client.messages.create`. */
  datatype Payload = Payload(to: string, messagingServiceSid: string, content: Content,
                             statusCallback: Option<string>)

  /** `send_text` either skips the message or sends one request. */
  datatype Outcome = Skipped | Send(payload: Payload)

  /** The `content_variables` argument: None, an already encoded string, or a dictionary. */
  datatype Variables<J> = NoVariables | RawJson(text: string) | Structured(value: J)

  function ChannelPrefix(channel: string): string {
    channel + ":"
  }

  /**
   * `_normalize_to`: strip the number, and put "channel:" in front unless it is already there.
   * An empty or all-whitespace number raises ValueError.
   */
  function NormalizeTo(toNumber: string, channel: string): (r: Result<string, SendError>)
    ensures r.Err? <==> Strip(toNumber) == []
    ensures r.Err? ==> r.error == ValueError
    ensures r.Ok? ==> ChannelPrefix(channel) <= r.value
    ensures r.Ok? ==> r.value == Strip(toNumber) || r.value == ChannelPrefix(channel) + Strip(toNumber)
    ensures r.Ok? && ChannelPrefix(channel) <= Strip(toNumber) ==> r.value == Strip(toNumber)
  {
    if toNumber == [] then Err(ValueError)
    else
      var number := Strip(toNumber);
      if number == [] then Err(ValueError)
      else if !(ChannelPrefix(channel) <= number) then Ok(ChannelPrefix(channel) + number)
      else Ok(number)
  }

  /** A normalised address normalises to itself (for a channel that does not start with a space). */
  lemma NormalizeToIdempotent(toNumber: string, channel: string)
    requires channel == [] || !IsSpace(channel[0])
    ensures var r := NormalizeTo(toNumber, channel);
            r.Ok? ==> NormalizeTo(r.value, channel) == r
  {
    var r := NormalizeTo(toNumber, channel);
    if r.Ok? {
      var v := r.value;
      assert Strip(v) == v by {
        var number := Strip(toNumber);
        if v != number {
          assert v[0] == (if channel == [] then ':' else channel[0]);
          assert v[|v| - 1] == number[|number| - 1];
        }
        StripNoOp(v);
      }
      assert ChannelPrefix(channel) <= v;
    }
  }

  /**
   * The two skip tests of `send_text`: the stripped body upper-cases to "OK", or lower-cases
   * to "ok" or "success".
   */
  predicate IsAcknowledgement(body: string) {
    Upper(Strip(body)) == "OK" || Lower(Strip(body)) in {"ok", "success"}
  }

  /** Under ASCII case mapping the first test is contained in the second. */
  lemma UpperOkIsLowerOk(t: string)
    ensures Upper(t) == "OK" <==> Lower(t) == "ok"
  {
    if Upper(t) == "OK" {
      assert Upper(t)[0] == 'O' && Upper(t)[1] == 'K';
      assert Lower(t) == "ok";
    }
    if Lower(t) == "ok" {
      assert Lower(t)[0] == 'o' && Lower(t)[1] == 'k';
      assert Upper(t) == "OK";
    }
  }

  /** The acknowledgements, spelled out: "ok" or "success" in any case, with any surrounding whitespace. */
  lemma AcknowledgementIff(body: string)
    ensures IsAcknowledgement(body) <==> Lower(Strip(body)) == "ok" || Lower(Strip(body)) == "success"
  {
    UpperOkIsLowerOk(Strip(body));
  }

  /** `messaging_service_sid or DEFAULT_MESSAGING_SERVICE_SID` */
  function ServiceSid(override: Option<string>, default: Option<string>): (r: Option<string>)
    ensures Filled(r) <==> Filled(override) || Filled(default)
    ensures Filled(override) ==> r == override
    ensures !Filled(override) ==> r == default
  {
    if Filled(override) then override else default
  }

  /** `payload["status_callback"]` is set only when the configured URL is truthy. */
  function CallbackField(callback: Option<string>): (r: Option<string>)
    ensures r.Some? <==> Filled(callback)
    ensures r.Some? ==> r == callback
  {
    if Filled(callback) then callback else None
  }

  /**
   * `send_text`: skip an acknowledgement; otherwise normalise the address (ValueError), find a
   * messaging-service SID (RuntimeError) and build the request with the body as given.
   */
  function SendText(to: string, body: string, override: Option<string>, default: Option<string>,
                    channel: string, callback: Option<string>): (r: Result<Outcome, SendError>)
    ensures r == Ok(Skipped) <==> IsAcknowledgement(body)
    ensures r.Err? <==> !IsAcknowledgement(body) && (Strip(to) == [] || !Filled(ServiceSid(override, default)))
    ensures r.Err? ==> r.error == (if Strip(to) == [] then ValueError else RuntimeError)
    ensures r.Ok? && r.value.Send? ==>
              var p := r.value.payload;
              NormalizeTo(to, channel) == Ok(p.to)
              && p.content == Body(body)
              && p.messagingServiceSid != []
              && (Filled(override) ==> p.messagingServiceSid == override.value)
              && (!Filled(override) ==> Some(p.messagingServiceSid) == default)
              && p.statusCallback == CallbackField(callback)
  {
    if Upper(Strip(body)) == "OK" then Ok(Skipped)
    else if Lower(Strip(body)) in {"ok", "success"} then Ok(Skipped)
    else
      var toAddr := NormalizeTo(to, channel);
      if toAddr.Err? then Err(toAddr.error)
      else
        var msid := ServiceSid(override, default);
        if !Filled(msid) then Err(RuntimeError)
        else Ok(Send(Payload(toAddr.value, msid.value, Body(body), CallbackField(callback))))
  }

  /** `content_variables`: None becomes "{}", a string is used as it is, a dictionary is encoded. */
  function VariablesJson<J>(vars: Variables<J>, encode: J -> string): (s: string)
    ensures vars.Structured? ==> s == encode(vars.value)
  {
    match vars
    case NoVariables => "{}"
    case RawJson(text) => text
    case Structured(value) => encode(value)
  }

  /**
   * `send_content_message`: normalise the address (ValueError), find a messaging-service SID
   * (RuntimeError), encode the variables and build the template request.
   */
  function SendContent<J>(to: string, contentSid: string, vars: Variables<J>, override: Option<string>,
                          default: Option<string>, channel: string, callback: Option<string>,
                          encode: J -> string): (r: Result<Payload, SendError>)
    ensures r.Err? <==> Strip(to) == [] || !Filled(ServiceSid(override, default))
    ensures r.Err? ==> r.error == (if Strip(to) == [] then ValueError else RuntimeError)
    ensures r.Ok? ==>
              NormalizeTo(to, channel) == Ok(r.value.to)
              && r.value.messagingServiceSid != []
              && r.value.messagingServiceSid == ServiceSid(override, default).value
              && r.value.statusCallback == CallbackField(callback)
    ensures r.Ok? && vars.NoVariables? ==> r.value.content == Template(contentSid, "{}")
    ensures r.Ok? && vars.RawJson? ==> r.value.content == Template(contentSid, vars.text)
    ensures r.Ok? && vars.Structured? ==> r.value.content == Template(contentSid, encode(vars.value))
  {
    var toAddr := NormalizeTo(to, channel);
    if toAddr.Err? then Err(toAddr.error)
    else
      var msid := ServiceSid(override, default);
      if !Filled(msid) then Err(RuntimeError)
      else Ok(Payload(toAddr.value, msid.value, Template(contentSid, VariablesJson(vars, encode)), CallbackField(callback)))
  }
}

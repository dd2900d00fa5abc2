/**
 * Provider delivery statuses mapped onto the four values the reports use
 * (app/utils/delivery_status.py): queued, sent, delivered, failed.
 */
module DeliveryStatus {
  import opened Wrappers
  import opened Text

  const CANONICAL: set<string> := {"queued", "sent", "delivered", "failed"}

  /** The explicit provider-status table. */
  const MAPPING: map<string, string> := map[
    "accepted" := "queued", "queued" := "queued", "pending" := "queued",
    "sending" := "sent", "sent" := "sent", "submitted" := "sent",
    "delivered" := "delivered", "read" := "delivered",
    "undelivered" := "failed", "failed" := "failed", "canceled" := "failed",
    "cancelled" := "failed", "error" := "failed"
  ]

  lemma MappingCanonical()
    ensures forall k :: k in MAPPING ==> MAPPING[k] in CANONICAL
    ensures forall c :: c in CANONICAL ==> c in MAPPING && MAPPING[c] == c
  {
  }

  /** Looks like an error: mentions "fail", "error" or "cancel". */
  predicate LooksFailed(s: string) {
    Contains(s, "fail") || Contains(s, "error") || Contains(s, "cancel")
  }

  /** The decision on a stripped, lower-cased status: table, then failure keywords, then sent. */
  function Classify(key: string): (r: string)
    ensures r in CANONICAL
    ensures key in MAPPING ==> r == MAPPING[key]
    ensures key !in MAPPING ==> r == (if LooksFailed(key) then "failed" else "sent")
  {
    MappingCanonical();
    if key in MAPPING then MAPPING[key]
    else if LooksFailed(key) then "failed"
    else if key in CANONICAL then key
    else "sent"
  }

  /**
   * `normalize_delivery_status`: a missing or empty status is queued; otherwise the stripped,
   * lower-cased status is classified.
   */
  function Normalize(status: Option<string>): (r: string)
    ensures r in CANONICAL
    ensures status == None || status == Some("") ==> r == "queued"
  {
    if status == None || status.value == "" then "queued"
    else Classify(Lower(Strip(status.value)))
  }

  /** Every canonical value is its own stripped lower-case form and its own table entry. */
  lemma CanonicalFixed(c: string)
    requires c in CANONICAL
    ensures c != [] && Lower(Strip(c)) == c && Classify(c) == c
  {
    CanonicalStripped(c);
    CanonicalLower(c);
    CanonicalClassified(c);
  }

  lemma CanonicalStripped(c: string)
    requires c in CANONICAL
    ensures Strip(c) == c
  {
    StripNoOp(c);
  }

  lemma CanonicalLower(c: string)
    requires c in CANONICAL
    ensures c != [] && Lower(c) == c
  {
    LowerNoUpper(c);
  }

  lemma CanonicalClassified(c: string)
    requires c in CANONICAL
    ensures Classify(c) == c
  {
    MappingCanonical();
  }

  /** Normalising a canonical value returns it unchanged, so normalising twice equals once. */
  lemma NormalizeIdempotent(status: Option<string>)
    ensures Normalize(Some(Normalize(status))) == Normalize(status)
  {
    CanonicalFixed(Normalize(status));
  }

  /** Lower-casing changes no whitespace character and keeps the ends of a stripped string. */
  lemma LowerStripped(s: string)
    requires s != [] ==> !IsSpace(s[0]) && !IsSpace(s[|s| - 1])
    ensures Strip(Lower(s)) == Lower(s)
    ensures Lower(Lower(s)) == Lower(s)
  {
    var l := Lower(s);
    if s != [] {
      assert !IsSpace(l[0]) && !IsSpace(l[|l| - 1]);
    }
    StripNoOp(l);
  }

  /** Matching ignores letter case and surrounding whitespace. */
  lemma CaseAndSpaceInsensitive(status: string)
    requires Strip(status) != []
    ensures Normalize(Some(status)) == Normalize(Some(Lower(Strip(status))))
  {
    LowerStripped(Strip(status));
  }

  /** A status outside the table that mentions a failure keyword is failed; any other is sent. */
  lemma Unlisted(status: string)
    requires status != [] && Lower(Strip(status)) !in MAPPING
    ensures LooksFailed(Lower(Strip(status))) ==> Normalize(Some(status)) == "failed"
    ensures !LooksFailed(Lower(Strip(status))) ==> Normalize(Some(status)) == "sent"
  {
  }

  /** A status of only whitespace is not empty, so it falls through to sent. */
  lemma BlankIsSent()
    ensures Normalize(Some(" ")) == "sent"
  {
    assert Lower(Strip(" ")) == "";
    assert !LooksFailed("");
  }

  /** A listed status, in any case and with any surrounding whitespace, maps through the table. */
  lemma Listed(status: string)
    requires status != [] && Lower(Strip(status)) in MAPPING
    ensures Normalize(Some(status)) == MAPPING[Lower(Strip(status))]
  {
  }
}

/** The poll document of the `Poll` collection, its schema constraints, and `Poll.create`. */
module PollSchema {
  import opened JsString
  import opened Wrappers

  /** Schema `maxlength` of the question. */
  const SchemaQuestionMax := 300
  /** Schema `maxlength` of an option's text. */
  const SchemaOptionTextMax := 120
  /** The `options` validator's lower bound (the schema sets no upper bound). */
  const SchemaMinOptions := 2

  /** A poll identifier (`_id`), as the string that appears in URLs and room names. */
  type PollId = string

  datatype PollOption = PollOption(text: string, votes: int)

  datatype Poll = Poll(
    question: string,
    options: seq<PollOption>,
    voterIps: seq<string>,
    voterTokens: seq<string>)

  /** The persisted collection: poll id to document. */
  type Store = map<PollId, Poll>

  /** `text`: required (non-empty), trimmed by its setter, at most 120 characters. */
  predicate ValidOptionText(t: string) {
    t != "" && IsTrimmed(t) && |t| <= SchemaOptionTextMax
  }

  /** `votes`: at least 0. */
  predicate ValidOption(o: PollOption) {
    ValidOptionText(o.text) && o.votes >= 0
  }

  /** `question`: required (non-empty), trimmed by its setter, at most 300 characters. */
  predicate ValidQuestion(q: string) {
    q != "" && IsTrimmed(q) && |q| <= SchemaQuestionMax
  }

  /** Every constraint the schema places on a stored poll document. */
  predicate ValidPoll(p: Poll) {
    && ValidQuestion(p.question)
    && |p.options| >= SchemaMinOptions
    && forall k :: 0 <= k < |p.options| ==> ValidOption(p.options[k])
  }

  /** The `trim: true` setter applied to each option's text. */
  function TrimTexts(options: seq<PollOption>): (r: seq<PollOption>)
    ensures |r| == |options|
    ensures forall k :: 0 <= k < |r| ==> r[k] == PollOption(Trim(options[k].text), options[k].votes)
  {
    seq(|options|, k requires 0 <= k < |options| => PollOption(Trim(options[k].text), options[k].votes))
  }

  /** `Poll.create({question, options})`: run the trim setters, fill in the empty
      `voterIps`/`voterTokens` defaults, then validate; `None` is a ValidationError. */
  function Create(question: string, options: seq<PollOption>): (r: Option<Poll>)
    ensures r.Some? <==> ValidPoll(Poll(Trim(question), TrimTexts(options), [], []))
    ensures r.Some? ==> ValidPoll(r.value)
    ensures r.Some? ==> r.value.voterIps == [] && r.value.voterTokens == []
    ensures r.Some? ==> r.value.question == Trim(question) && r.value.options == TrimTexts(options)
  {
    var doc := Poll(Trim(question), TrimTexts(options), [], []);
    if ValidPoll(doc) then Some(doc) else None
  }

  /** A document that already satisfies the schema passes `Poll.create` unchanged:
      the setters are idempotent on trimmed text. */
  lemma CreateAcceptsValid(question: string, options: seq<PollOption>)
    requires ValidPoll(Poll(question, options, [], []))
    ensures Create(question, options) == Some(Poll(question, options, [], []))
  {
    TrimIdempotentOnTrimmed(question);
    forall k | 0 <= k < |options|
      ensures Trim(options[k].text) == options[k].text
    {
      TrimIdempotentOnTrimmed(options[k].text);
    }
    assert TrimTexts(options) == options;
  }

  lemma TrimIdempotentOnTrimmed(s: string)
    requires IsTrimmed(s)
    ensures Trim(s) == s
  {
    TrimUnique("", s, "");
    assert "" + s + "" == s;
  }
}

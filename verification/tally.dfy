/** Vote counting: `totalVotes`, the `$inc` of one option's counter, and `pollPayload`. */
module Tally {
  import opened PollSchema

  /** `options.reduce((sum, option) => sum + option.votes, 0)`, folded left to right. */
  function TotalVotes(options: seq<PollOption>): (t: int)
    ensures (forall k :: 0 <= k < |options| ==> options[k].votes >= 0) ==> t >= 0
    ensures (forall k :: 0 <= k < |options| ==> options[k].votes == 0) ==> t == 0
  {
    if |options| == 0 then 0
    else TotalVotes(options[..|options| - 1]) + options[|options| - 1].votes
  }

  /** `$inc: { "options.<i>.votes": 1 }`. */
  function IncrementAt(options: seq<PollOption>, i: nat): (r: seq<PollOption>)
    requires i < |options|
  {
    options[i := options[i].(votes := options[i].votes + 1)]
  }

  /** The sum is additive over concatenation. */
  lemma {:induction false} TotalVotesAppend(a: seq<PollOption>, b: seq<PollOption>)
    ensures TotalVotes(a + b) == TotalVotes(a) + TotalVotes(b)
    decreases |b|
  {
    if |b| == 0 {
      assert a + b == a;
    } else {
      assert (a + b)[..|a + b| - 1] == a + b[..|b| - 1];
      TotalVotesAppend(a, b[..|b| - 1]);
    }
  }

  /** Incrementing one option's counter raises the total by exactly one and changes
      no other option. */
  lemma {:induction false} TotalVotesIncrement(options: seq<PollOption>, i: nat)
    requires i < |options|
    ensures TotalVotes(IncrementAt(options, i)) == TotalVotes(options) + 1
    ensures |IncrementAt(options, i)| == |options|
    ensures IncrementAt(options, i)[i].votes == options[i].votes + 1
    ensures IncrementAt(options, i)[i].text == options[i].text
    ensures forall k :: 0 <= k < |options| && k != i ==> IncrementAt(options, i)[k] == options[k]
  {
    var r := IncrementAt(options, i);
    assert options == options[..i] + [options[i]] + options[i + 1..];
    assert r == options[..i] + [r[i]] + options[i + 1..];
    TotalVotesAppend(options[..i] + [options[i]], options[i + 1..]);
    TotalVotesAppend(options[..i], [options[i]]);
    TotalVotesAppend(options[..i] + [r[i]], options[i + 1..]);
    TotalVotesAppend(options[..i], [r[i]]);
    assert TotalVotes([r[i]]) == TotalVotes([options[i]]) + 1 by {
      assert [r[i]][..0] == [];
      assert [options[i]][..0] == [];
    }
  }

  /** The tally of a two-option poll is the sum of its two counters. */
  lemma TotalVotesOfTwo(x: PollOption, y: PollOption)
    ensures TotalVotes([x, y]) == x.votes + y.votes
  {
    assert [x, y][..1] == [x];
    assert [x][..0] == [];
  }

  /** The body of every successful vote response and every `poll:update` event. */
  datatype Payload = Payload(pollId: PollId, question: string, options: seq<PollOption>, totalVotes: int)

  /** `pollPayload(poll)`. */
  function PollPayload(id: PollId, p: Poll): (r: Payload)
    ensures r.pollId == id && r.question == p.question && r.options == p.options
    ensures r.totalVotes == TotalVotes(p.options)
    ensures (forall k :: 0 <= k < |p.options| ==> p.options[k].votes >= 0) ==> r.totalVotes >= 0
  {
    Payload(id, p.question, p.options, TotalVotes(p.options))
  }
}

/** The invariants of the vote ledger: what every stored poll satisfies between requests. */
module Ledger {
  import opened PollSchema
  import opened Tally

  predicate NoDuplicates(xs: seq<string>) {
    forall a, b :: 0 <= a < b < |xs| ==> xs[a] != xs[b]
  }

  /** One poll's ledger: its total equals the number of recorded addresses and the number
      of recorded tokens, and each is recorded once. */
  predicate Consistent(p: Poll) {
    && TotalVotes(p.options) == |p.voterIps| == |p.voterTokens|
    && NoDuplicates(p.voterIps)
    && NoDuplicates(p.voterTokens)
  }

  /** Every poll satisfies the schema and the ledger invariant. */
  predicate ValidStore(s: Store) {
    forall id :: id in s ==> ValidPoll(s[id]) && Consistent(s[id])
  }

  lemma AppendFresh(xs: seq<string>, x: string)
    requires NoDuplicates(xs) && x !in xs
    ensures NoDuplicates(xs + [x])
  {
    forall a, b | 0 <= a < b < |xs + [x]| ensures (xs + [x])[a] != (xs + [x])[b] {
      if b == |xs| {
        assert (xs + [x])[a] == xs[a];
      }
    }
  }

  lemma ValidStoreUpdate(s: Store, id: PollId, p: Poll)
    requires ValidStore(s) && ValidPoll(p) && Consistent(p)
    ensures ValidStore(s[id := p])
  {
  }

  /** A freshly created poll (no votes, no voters) is consistent. */
  lemma FreshPollConsistent(p: Poll)
    requires p.voterIps == [] && p.voterTokens == []
    requires forall k :: 0 <= k < |p.options| ==> p.options[k].votes == 0
    ensures Consistent(p)
  {
  }
}

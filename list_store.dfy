/**
 * The two local updates of the campaign list: replacing the records of one id
 * by the edited payload (`campaigns.map(...)`) and removing the records of one
 * id (`campaigns.filter(...)`), with what they do to a list whose ids are unique.
 */
module ListStore {
  import opened Campaigns
  import opened Seqs

  /** No two records share an id. */
  predicate UniqueIds(cs: seq<Campaign>) {
    forall i, j :: 0 <= i < |cs| && 0 <= j < |cs| && cs[i].id == cs[j].id ==> i == j
  }

  /** Some record carries this id. */
  predicate HasId(cs: seq<Campaign>, id: string) {
    exists i :: 0 <= i < |cs| && cs[i].id == id
  }

  /** Every record whose id is `id` becomes `edited`; the others stay where they are. */
  function ReplaceById(cs: seq<Campaign>, id: string, edited: Campaign): (r: seq<Campaign>)
    ensures |r| == |cs|
    ensures forall i :: 0 <= i < |cs| ==> r[i] == if cs[i].id == id then edited else cs[i]
  {
    seq(|cs|, i requires 0 <= i < |cs| => if cs[i].id == id then edited else cs[i])
  }

  /** With unique ids, replacing touches the one position that carries the id. */
  lemma ReplaceOne(cs: seq<Campaign>, id: string, edited: Campaign, j: nat)
    requires UniqueIds(cs) && j < |cs| && cs[j].id == id
    ensures ReplaceById(cs, id, edited) == cs[j := edited]
  {
  }

  /** An edit whose record has meanwhile disappeared from the list changes nothing. */
  lemma ReplaceAbsent(cs: seq<Campaign>, id: string, edited: Campaign)
    requires !HasId(cs, id)
    ensures ReplaceById(cs, id, edited) == cs
  {
  }

  /** When the payload keeps the id, every id keeps its position, so ids stay unique. */
  lemma ReplaceKeepsIds(cs: seq<Campaign>, id: string, edited: Campaign)
    requires edited.id == id
    ensures forall i :: 0 <= i < |cs| ==> ReplaceById(cs, id, edited)[i].id == cs[i].id
    ensures UniqueIds(cs) ==> UniqueIds(ReplaceById(cs, id, edited))
  {
  }

  function HasOtherId(id: string): Campaign -> bool {
    (c: Campaign) => c.id != id
  }

  /** The records whose id is not `id`, in their original order. */
  function RemoveById(cs: seq<Campaign>, id: string): (r: seq<Campaign>)
    ensures |r| <= |cs|
    ensures forall c :: c in r <==> c in cs && c.id != id
  {
    FilterMembers(cs, HasOtherId(id));
    Filter(cs, HasOtherId(id))
  }

  /** Removing an id that no record carries changes nothing. */
  lemma RemoveAbsent(cs: seq<Campaign>, id: string)
    requires !HasId(cs, id)
    ensures RemoveById(cs, id) == cs
  {
    FilterKeepsAll(cs, HasOtherId(id));
  }

  /** With unique ids, removing drops exactly the one record that carries the id. */
  lemma RemoveOne(cs: seq<Campaign>, id: string, j: nat)
    requires UniqueIds(cs) && j < |cs| && cs[j].id == id
    ensures RemoveById(cs, id) == cs[..j] + cs[j + 1..]
  {
    var before, after := cs[..j], cs[j + 1..];
    assert !HasId(before, id) by {
      forall k | 0 <= k < |before| ensures before[k].id != id {
        assert before[k] == cs[k];
      }
    }
    assert !HasId(after, id) by {
      forall k | 0 <= k < |after| ensures after[k].id != id {
        assert after[k] == cs[j + 1 + k];
      }
    }
    RemoveSplit(before, cs[j], after, id);
    assert cs == before + [cs[j]] + after;
  }

  /** Removing the record between two stretches that do not carry its id leaves the two stretches. */
  lemma RemoveSplit(before: seq<Campaign>, c: Campaign, after: seq<Campaign>, id: string)
    requires !HasId(before, id) && !HasId(after, id) && c.id == id
    ensures RemoveById(before + [c] + after, id) == before + after
  {
    var keep := HasOtherId(id);
    RemoveAbsent(before, id);
    RemoveAbsent(after, id);
    assert !keep(c);
    assert Filter([c], keep) == [] by {
      assert [c][1..] == [];
    }
    FilterAppend([c], after, keep);
    assert Filter([c] + after, keep) == after;
    FilterAppend(before, [c] + after, keep);
    assert before + [c] + after == before + ([c] + after);
  }

  /** Removing keeps ids unique. */
  lemma {:induction false} RemoveKeepsUnique(cs: seq<Campaign>, id: string)
    requires UniqueIds(cs)
    ensures UniqueIds(RemoveById(cs, id))
  {
    if cs != [] {
      var keep := HasOtherId(id);
      var tail := cs[1..];
      RemoveKeepsUnique(tail, id);
      var rest := RemoveById(tail, id);
      forall c | c in rest ensures c.id != cs[0].id {
        var k :| 0 <= k < |tail| && tail[k] == c;
        assert cs[k + 1] == c;
      }
      assert RemoveById(cs, id) == (if keep(cs[0]) then [cs[0]] else []) + rest;
    }
  }
}

/**
 * The matching operation of services/group/service.go: fetch a group, turn a
 * random derangement of its participants into gift pairs, persist them and
 * store them on the group. The repository is a stand-in for the abstract
 * `group.Repository` interface: a store of group documents plus, per id, the
 * error a lookup or a matches update reports instead of succeeding.
 */
module GroupService {
  import opened Wrappers
  import opened Combinatorics

  datatype Participant = Participant(name: string, email: string)

  /** first gives a gift to second. */
  datatype Match = Match(first: string, second: string)

  datatype CustomError = CustomError(message: string, causes: string, status: int, code: string)

  function BadRequest(causes: string, message: string): CustomError
  {
    CustomError(message, causes, 400, "Bad Request")
  }

  function NotFound(causes: string, message: string): CustomError
  {
    CustomError(message, causes, 404, "Not Found")
  }

  const NotEnoughParticipants: CustomError :=
    BadRequest("Not enough participants", "At least two participants are required for matching")

  const GroupNotFound: CustomError :=
    NotFound("Group not found", "No group found with the given ID")

  /** A stored group document. */
  datatype GroupDoc = GroupDoc(id: string, name: string, participants: seq<Participant>, matches: seq<Match>)

  /** A group as the service handles it: a mutable record. */
  class Group {
    var id: string
    var name: string
    var participants: seq<Participant>
    var matches: seq<Match>

    constructor FromDoc(doc: GroupDoc)
      ensures Doc() == doc
    {
      id, name, participants, matches := doc.id, doc.name, doc.participants, doc.matches;
    }

    function Doc(): GroupDoc
      reads this
    {
      GroupDoc(id, name, participants, matches)
    }
  }

  class Repository {
    var groups: map<string, GroupDoc>
    /** Ids whose lookup fails (bad id format, database error), with the error reported. */
    const lookupFailures: map<string, CustomError>
    /** Ids whose matches update fails, with the error reported. */
    const updateFailures: map<string, CustomError>

    constructor (groups: map<string, GroupDoc>, lookupFailures: map<string, CustomError>,
                 updateFailures: map<string, CustomError>)
      ensures this.groups == groups
      ensures this.lookupFailures == lookupFailures && this.updateFailures == updateFailures
    {
      this.groups := groups;
      this.lookupFailures := lookupFailures;
      this.updateFailures := updateFailures;
    }

    /** A freshly decoded copy of the stored group, or the lookup's error. */
    method GetGroupByID(id: string) returns (r: Result<Group, CustomError>)
      ensures id in lookupFailures ==> r == Failure(lookupFailures[id])
      ensures id !in lookupFailures && id !in groups ==> r == Failure(GroupNotFound)
      ensures id !in lookupFailures && id in groups ==>
                r.Success? && fresh(r.value) && r.value.Doc() == groups[id]
    {
      if id in lookupFailures {
        return Failure(lookupFailures[id]);
      }
      if id !in groups {
        return Failure(GroupNotFound);
      }
      var g := new Group.FromDoc(groups[id]);
      return Success(g);
    }

    /** Sets the stored group's matches; a missing id updates nothing and is no error. */
    method UpdateMatches(id: string, matches: seq<Match>) returns (err: Option<CustomError>)
      modifies this
      ensures err == if id in updateFailures then Some(updateFailures[id]) else None
      ensures groups == if err.None? && id in old(groups)
                        then old(groups)[id := old(groups)[id].(matches := matches)]
                        else old(groups)
    {
      if id in updateFailures {
        return Some(updateFailures[id]);
      }
      if id in groups {
        groups := groups[id := groups[id].(matches := matches)];
      }
      return None;
    }
  }

  function Names(ps: seq<Participant>): (names: seq<string>)
    ensures |names| == |ps| && forall k :: 0 <= k < |ps| ==> names[k] == ps[k].name
  {
    seq(|ps|, k requires 0 <= k < |ps| => ps[k].name)
  }

  function Givers(matches: seq<Match>): (gs: seq<string>)
    ensures |gs| == |matches| && forall k :: 0 <= k < |matches| ==> gs[k] == matches[k].first
  {
    seq(|matches|, k requires 0 <= k < |matches| => matches[k].first)
  }

  function Receivers(matches: seq<Match>): (rs: seq<string>)
    ensures |rs| == |matches| && forall k :: 0 <= k < |matches| ==> rs[k] == matches[k].second
  {
    seq(|matches|, k requires 0 <= k < |matches| => matches[k].second)
  }

  /** Match k pairs participant k with participant perm[k]. */
  ghost predicate PairedBy(matches: seq<Match>, ps: seq<Participant>, perm: seq<int>)
  {
    && |matches| == |ps| == |perm|
    && forall k :: 0 <= k < |matches| ==>
         0 <= perm[k] < |ps| && matches[k] == Match(ps[k].name, ps[perm[k]].name)
  }

  /** The matches pair every participant along some derangement of the group. */
  ghost predicate IsDerangedPairing(matches: seq<Match>, ps: seq<Participant>)
  {
    exists perm :: IsPermutation(perm, |ps|) && IsDerangement(perm) && PairedBy(matches, ps, perm)
  }

  ghost predicate DistinctNames(ps: seq<Participant>)
  {
    forall a, b :: 0 <= a < b < |ps| ==> ps[a].name != ps[b].name
  }

  /** The loop that appends one match per participant, in participant order. */
  method PairParticipants(ps: seq<Participant>, perm: seq<int>) returns (matches: seq<Match>)
    requires |perm| == |ps|
    requires forall k :: 0 <= k < |perm| ==> 0 <= perm[k] < |ps|
    ensures PairedBy(matches, ps, perm)
  {
    matches := [];
    for i := 0 to |ps|
      invariant |matches| == i
      invariant forall k :: 0 <= k < i ==> matches[k] == Match(ps[k].name, ps[perm[k]].name)
    {
      matches := matches + [Match(ps[i].name, ps[perm[i]].name)];
    }
  }

  /** With a derangement and distinct names, nobody is matched with themselves. */
  lemma NoSelfMatch(matches: seq<Match>, ps: seq<Participant>, perm: seq<int>)
    requires PairedBy(matches, ps, perm) && IsDerangement(perm) && DistinctNames(ps)
    ensures forall k :: 0 <= k < |matches| ==> matches[k].first != matches[k].second
  {
    forall k | 0 <= k < |matches|
      ensures matches[k].first != matches[k].second
    {
      var t := perm[k];
      assert t != k;
      if t < k {
        assert ps[t].name != ps[k].name;
      } else {
        assert ps[k].name != ps[t].name;
      }
    }
  }

  /** Every index of s is a position of a sequence of length n. */
  ghost predicate InRange(s: seq<int>, n: nat)
  {
    forall k :: 0 <= k < |s| ==> 0 <= s[k] < n
  }

  /** names[perm[0]], names[perm[1]], ... */
  function Pick(names: seq<string>, perm: seq<int>): (r: seq<string>)
    requires InRange(perm, |names|)
    ensures |r| == |perm| && forall k :: 0 <= k < |perm| ==> r[k] == names[perm[k]]
  {
    seq(|perm|, k requires 0 <= k < |perm| => names[perm[k]])
  }

  lemma PickConcat(names: seq<string>, a: seq<int>, b: seq<int>)
    requires InRange(a, |names|) && InRange(b, |names|)
    ensures InRange(a + b, |names|)
    ensures Pick(names, a + b) == Pick(names, a) + Pick(names, b)
  {
  }

  /** Removing the first element of s and one equal element t[j] of t keeps the multisets equal. */
  lemma RemoveMatching(s: seq<int>, t: seq<int>, j: nat)
    requires s != [] && j < |t| && t[j] == s[0] && multiset(s) == multiset(t)
    ensures t == t[..j] + [t[j]] + t[j + 1..]
    ensures multiset(s[1..]) == multiset(t[..j] + t[j + 1..])
  {
    var x := s[0];
    assert t == t[..j] + [x] + t[j + 1..];
    assert s == [x] + s[1..];
    assert multiset(s[1..]) == multiset(s) - multiset{x};
    assert multiset(t[..j] + t[j + 1..]) == multiset(t) - multiset{x};
  }

  /** Picking along s is picking its head, then its tail. */
  lemma PickCons(names: seq<string>, s: seq<int>)
    requires InRange(s, |names|) && s != []
    ensures InRange([s[0]], |names|) && InRange(s[1..], |names|)
    ensures multiset(Pick(names, s)) == multiset(Pick(names, [s[0]])) + multiset(Pick(names, s[1..]))
  {
    assert s == [s[0]] + s[1..];
    PickConcat(names, [s[0]], s[1..]);
  }

  /** Picking along t is picking t[j] and then the rest of t, up to order. */
  lemma PickAround(names: seq<string>, t: seq<int>, j: nat)
    requires InRange(t, |names|) && j < |t|
    ensures InRange([t[j]], |names|) && InRange(t[..j] + t[j + 1..], |names|)
    ensures multiset(Pick(names, t)) == multiset(Pick(names, [t[j]])) + multiset(Pick(names, t[..j] + t[j + 1..]))
  {
    var before, after := t[..j], t[j + 1..];
    assert t == before + [t[j]] + after;
    PickConcat(names, before, [t[j]]);
    PickConcat(names, before + [t[j]], after);
    PickConcat(names, before, after);
  }

  /** Picking along two index sequences with the same multiset gives the same multiset. */
  lemma {:induction false} PickPreservesMultiset(names: seq<string>, s: seq<int>, t: seq<int>)
    requires InRange(s, |names|) && InRange(t, |names|)
    requires multiset(s) == multiset(t)
    ensures multiset(Pick(names, s)) == multiset(Pick(names, t))
    decreases |s|
  {
    if s == [] {
      assert |t| == |multiset(t)| == 0;
    } else {
      var x := s[0];
      assert x in multiset(t);
      var j :| 0 <= j < |t| && t[j] == x;
      RemoveMatching(s, t, j);
      PickCons(names, s);
      PickAround(names, t, j);
      PickPreservesMultiset(names, s[1..], t[..j] + t[j + 1..]);
    }
  }

  /**
   * Along a permutation, every participant is a giver exactly once, in
   * participant order, and the receivers are the participants again,
   * each as often as among the participants.
   */
  lemma EveryoneGivesAndReceivesOnce(matches: seq<Match>, ps: seq<Participant>, perm: seq<int>)
    requires PairedBy(matches, ps, perm) && IsPermutation(perm, |ps|)
    ensures Givers(matches) == Names(ps)
    ensures multiset(Receivers(matches)) == multiset(Names(ps))
  {
    var names := Names(ps);
    assert Receivers(matches) == Pick(names, perm);
    assert Pick(names, Identity(|ps|)) == names;
    PickPreservesMultiset(names, perm, Identity(|ps|));
  }

  /** With distinct names, each participant is a receiver in exactly one match. */
  lemma ReceiversAreUnique(matches: seq<Match>, ps: seq<Participant>, perm: seq<int>, p: nat)
    requires PairedBy(matches, ps, perm) && IsPermutation(perm, |ps|) && DistinctNames(ps)
    requires p < |ps|
    ensures multiset(Receivers(matches))[ps[p].name] == 1
  {
    EveryoneGivesAndReceivesOnce(matches, ps, perm);
    DistinctCountOne(Names(ps), p);
  }

  /**
   * What the matches of a successful MatchParticipants give, once names are
   * distinct: one match per participant, nobody draws themselves, everyone
   * gives in participant order and everyone receives exactly once.
   */
  lemma DerangedPairingFacts(matches: seq<Match>, ps: seq<Participant>)
    requires IsDerangedPairing(matches, ps) && DistinctNames(ps)
    ensures |matches| == |ps|
    ensures forall k :: 0 <= k < |matches| ==> matches[k].first != matches[k].second
    ensures Givers(matches) == Names(ps)
    ensures forall p :: 0 <= p < |ps| ==> multiset(Receivers(matches))[ps[p].name] == 1
  {
    var perm :| IsPermutation(perm, |ps|) && IsDerangement(perm) && PairedBy(matches, ps, perm);
    NoSelfMatch(matches, ps, perm);
    EveryoneGivesAndReceivesOnce(matches, ps, perm);
    forall p | 0 <= p < |ps|
      ensures multiset(Receivers(matches))[ps[p].name] == 1
    {
      ReceiversAreUnique(matches, ps, perm, p);
    }
  }

  lemma {:induction false} DistinctCountOne(names: seq<string>, p: nat)
    requires p < |names|
    requires forall a, b :: 0 <= a < b < |names| ==> names[a] != names[b]
    ensures multiset(names)[names[p]] == 1
  {
    var v := names[p];
    assert names == names[..p] + [v] + names[p + 1..];
    assert v !in multiset(names[..p]);
    assert v !in multiset(names[p + 1..]);
  }

  class Service {
    const repo: Repository
    /** The subfactorial cache the sampler reads (a package global in the source). */
    const subfactorials: SubfactorialTable

    constructor (repo: Repository, subfactorials: SubfactorialTable)
      ensures this.repo == repo && this.subfactorials == subfactorials
    {
      this.repo := repo;
      this.subfactorials := subfactorials;
    }

    /**
     * Assigns every participant of group id a recipient along a random
     * derangement, persists the matches and returns the group carrying them.
     */
    method MatchParticipants(id: string) returns (r: Result<Group, CustomError>)
      requires subfactorials.Valid()
      modifies repo, subfactorials
      ensures subfactorials.Valid() && old(subfactorials.dp) <= subfactorials.dp
      // the lookup's error is passed on and nothing else happens
      ensures id in repo.lookupFailures ==>
                r == Failure(repo.lookupFailures[id]) && unchanged(repo, subfactorials)
      ensures id !in repo.lookupFailures && id !in old(repo.groups) ==>
                r == Failure(GroupNotFound) && unchanged(repo, subfactorials)
      // fewer than two participants: a 400, before sampling or storing anything
      ensures id !in repo.lookupFailures && id in old(repo.groups) &&
              |old(repo.groups)[id].participants| < 2 ==>
                r == Failure(NotEnoughParticipants) && r.error.status == 400 &&
                unchanged(repo, subfactorials)
      // the update's error is passed on and nothing is stored
      ensures id !in repo.lookupFailures && id in old(repo.groups) &&
              |old(repo.groups)[id].participants| >= 2 && id in repo.updateFailures ==>
                r == Failure(repo.updateFailures[id]) && repo.groups == old(repo.groups)
      // success: the same group, its matches set and persisted
      ensures id !in repo.lookupFailures && id in old(repo.groups) &&
              |old(repo.groups)[id].participants| >= 2 && id !in repo.updateFailures ==>
                && r.Success? && fresh(r.value)
                && r.value.Doc() == old(repo.groups)[id].(matches := r.value.matches)
                && IsDerangedPairing(r.value.matches, r.value.participants)
                && repo.groups == old(repo.groups)[id := r.value.Doc()]
    {
      var fetched := repo.GetGroupByID(id);
      if fetched.Failure? {
        return Failure(fetched.error);
      }
      var group := fetched.value;
      if |group.participants| < 2 {
        return Failure(NotEnoughParticipants);
      }
      var ps := group.participants;
      var perm := RandomDerangement(|ps|, subfactorials);
      PermutationIsBijection(perm, |ps|);
      var matches := PairParticipants(ps, perm);
      var updateErr := repo.UpdateMatches(id, matches);
      if updateErr.Some? {
        return Failure(updateErr.value);
      }
      group.matches := matches;
      return Success(group);
    }
  }
}

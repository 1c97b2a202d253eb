/**
 * The voting machine's state and its request handlers: a voter registry
 * (the `voters` table, keyed by the unique `voter_id`) and a ballot ledger
 * (the append-only `votes` table). The voter-facing checks read the
 * registry; casting a vote appends to the ledger and marks the voter; the
 * admin panel adds, edits, deletes voters and toggles their voted status.
 */
module SmartVoting {
  import opened Wrappers
  import opened Text
  import opened Age

  /** The shared secret that gates changing a voter's voted status. */
  const VotedStatusPassword := "989464"

  /** One row of `voters`, without its `voter_id` key. Text columns may be NULL. */
  datatype VoterRecord = VoterRecord(
    name: Option<string>,
    dob: Option<string>,
    phone: Option<string>,
    fingerprint: Option<string>,
    hasVoted: int,
    createdAt: string)

  /** One row of `votes`. */
  datatype Vote = Vote(voterId: string, candidate: string, timestamp: string)

  /** The voter details the QR check returns to the voting page. */
  datatype VoterSummary = VoterSummary(
    voterId: string,
    name: Option<string>,
    dob: Option<string>,
    phone: Option<string>,
    hasVoted: bool)

  datatype QrResult = MissingVoterId | NotRegistered | Underage(age: int) | QrAccepted(voter: VoterSummary)

  datatype FingerprintResult = FingerprintMissingData | FingerprintVoterNotFound | FingerprintChecked(ok: bool)

  datatype CastResult = CastMissingData | CastVoterNotFound | AlreadyVoted | VoteRecorded(timestamp: string)

  datatype AddResult = VoterAdded | DuplicateVoterId

  datatype EditResult = VoterUpdated | EditVoterNotFound

  datatype StatusResult = IncorrectPassword | StatusUpdated(newStatus: int) | StatusVoterNotFound

  /** SQLite's truth value of the `has_voted` column. */
  predicate Voted(r: VoterRecord) {
    r.hasVoted != 0
  }

  /** The fingerprint the check compares against: a NULL column counts as the empty string. */
  function StoredFingerprint(r: VoterRecord): string {
    r.fingerprint.GetOr("")
  }

  /** The number of ledger rows recorded for `voterId`. */
  function CountVotes(votes: seq<Vote>, voterId: string): nat {
    if votes == [] then 0
    else (if votes[0].voterId == voterId then 1 else 0) + CountVotes(votes[1..], voterId)
  }

  /** Appending one row adds one to its voter's count and leaves every other count alone. */
  lemma {:induction false} CountVotesAppend(votes: seq<Vote>, v: Vote, voterId: string)
    ensures CountVotes(votes + [v], voterId) ==
      CountVotes(votes, voterId) + (if v.voterId == voterId then 1 else 0)
  {
    if votes != [] {
      assert (votes + [v])[1..] == votes[1..] + [v];
      CountVotesAppend(votes[1..], v, voterId);
    }
  }

  /** The two tables of the voting database. */
  class VotingDb {
    var voters: map<string, VoterRecord>
    var votes: seq<Vote>

    /** Every `has_voted` value is 0 or 1: the handlers only ever write 0, 1 or `1 - has_voted`. */
    ghost predicate Valid()
      reads this
    {
      forall id :: id in voters ==> voters[id].hasVoted == 0 || voters[id].hasVoted == 1
    }

    /**
     * The ledger agrees with the registry: a registered voter has at most one
     * vote, and none while not marked as having voted. Casting votes,
     * editing and deleting keep this. It breaks when the admin override
     * resets a voter who has a vote, and when an id is deleted and added
     * again: the deleted voter's ledger rows stay behind and the new record
     * starts as not voted.
     */
    ghost predicate OneBallotPerVoter()
      reads this
    {
      forall id :: id in voters ==>
        CountVotes(votes, id) <= 1 && (!Voted(voters[id]) ==> CountVotes(votes, id) == 0)
    }

    /** A freshly created database: both tables empty. */
    constructor ()
      ensures Valid() && OneBallotPerVoter()
      ensures voters == map[] && votes == []
    {
      voters := map[];
      votes := [];
    }

    /**
     * `api_verify_qr`: look the trimmed voter id up and apply the voting-age
     * gate to the stored date of birth. `parse` is the YYYY-MM-DD date parser
     * and `today` the current date. A date of birth that does not parse gives
     * age -1 and so is always rejected as underage.
     */
    method VerifyQr(voterId: string, parse: string -> Option<Date>, today: Date) returns (r: QrResult)
      ensures var id := Strip(voterId);
        && (r == MissingVoterId <==> id == [])
        && (r == NotRegistered <==> id != [] && id !in voters)
        && (r.Underage? <==>
              (id != [] && id in voters && CalculateAge(ParseDob(voters[id].dob, parse), today) < VotingAge))
        && (r.Underage? ==> r.age == CalculateAge(ParseDob(voters[id].dob, parse), today))
        && (r.QrAccepted? ==> id in voters && r.voter == VoterSummary(
              id, voters[id].name, voters[id].dob, voters[id].phone, Voted(voters[id])))
      ensures var id := Strip(voterId);
        id != [] && id in voters && ParseDob(voters[id].dob, parse).None? ==> r == Underage(UnparsableAge)
      ensures var id := Strip(voterId);
        id != [] && id in voters && voters[id].dob.None? ==> r == Underage(UnparsableAge)
    {
      var id := Strip(voterId);
      if id == [] {
        return MissingVoterId;
      }
      if id !in voters {
        return NotRegistered;
      }
      var rec := voters[id];
      var age := CalculateAge(ParseDob(rec.dob, parse), today);
      if age < VotingAge {
        return Underage(age);
      }
      r := QrAccepted(VoterSummary(id, rec.name, rec.dob, rec.phone, Voted(rec)));
    }

    /**
     * `api_verify_fingerprint`: exact comparison of the payload with the
     * stored fingerprint. The voter id is trimmed; the payload is not.
     * `payload` is None when the request carries no payload.
     */
    method VerifyFingerprint(voterId: string, payload: Option<string>) returns (r: FingerprintResult)
      ensures var id := Strip(voterId);
        && (r == FingerprintMissingData <==> id == [] || payload.None?)
        && (r == FingerprintVoterNotFound <==> id != [] && payload.Some? && id !in voters)
        && (r.FingerprintChecked? ==>
              (id in voters && payload.Some? && (r.ok <==> payload.value == StoredFingerprint(voters[id]))))
    {
      var id := Strip(voterId);
      if id == [] || payload.None? {
        return FingerprintMissingData;
      }
      if id !in voters {
        return FingerprintVoterNotFound;
      }
      var stored := StoredFingerprint(voters[id]);
      r := FingerprintChecked(payload.value == stored);
    }

    /**
     * `api_cast_vote`: record one vote for the trimmed candidate and mark the
     * voter. Only presence and the voted flag are checked here: neither the
     * age gate nor the fingerprint is looked at again. `now` is the timestamp.
     */
    method CastVote(voterId: string, candidate: string, now: string) returns (r: CastResult)
      requires Valid()
      modifies this
      ensures Valid()
      ensures var id, c := Strip(voterId), Strip(candidate);
        && (r == CastMissingData <==> id == [] || c == [])
        && (r == CastVoterNotFound <==> id != [] && c != [] && id !in old(voters))
        && (r == AlreadyVoted <==> id != [] && c != [] && id in old(voters) && Voted(old(voters)[id]))
        && (r.VoteRecorded? <==> id != [] && c != [] && id in old(voters) && !Voted(old(voters)[id]))
        && (!r.VoteRecorded? ==> voters == old(voters) && votes == old(votes))
        && (r.VoteRecorded? ==>
              && id in old(voters)
              && r.timestamp == now
              && votes == old(votes) + [Vote(id, c, now)]
              && voters == old(voters)[id := old(voters)[id].(hasVoted := 1)])
      ensures old(OneBallotPerVoter()) ==> OneBallotPerVoter()
    {
      var id, c := Strip(voterId), Strip(candidate);
      if id == [] || c == [] {
        return CastMissingData;
      }
      if id !in voters {
        return CastVoterNotFound;
      }
      if Voted(voters[id]) {
        return AlreadyVoted;
      }
      ghost var before := votes;
      var v := Vote(id, c, now);
      votes := votes + [v];
      voters := voters[id := voters[id].(hasVoted := 1)];
      forall k | k in voters
        ensures CountVotes(votes, k) == CountVotes(before, k) + (if k == id then 1 else 0)
      {
        CountVotesAppend(before, v, k);
      }
      r := VoteRecorded(now);
    }

    /**
     * `admin_add`: insert a new voter who has not voted. The UNIQUE
     * constraint on `voter_id` turns an insert of an existing id into a
     * "Voter ID already exists" error that changes nothing.
     */
    method AdminAdd(voterId: string, name: Option<string>, dob: Option<string>, phone: Option<string>,
                    fingerprint: Option<string>, now: string) returns (r: AddResult)
      requires Valid()
      modifies this
      ensures Valid()
      ensures r == DuplicateVoterId <==> voterId in old(voters)
      ensures r == DuplicateVoterId ==> voters == old(voters)
      ensures r == VoterAdded ==>
        voters == old(voters)[voterId := VoterRecord(name, dob, phone, fingerprint, 0, now)]
      ensures votes == old(votes)
      ensures old(OneBallotPerVoter()) && CountVotes(votes, voterId) == 0 ==> OneBallotPerVoter()
    {
      if voterId in voters {
        return DuplicateVoterId;
      }
      voters := voters[voterId := VoterRecord(name, dob, phone, fingerprint, 0, now)];
      r := VoterAdded;
    }

    /**
     * `admin_edit` (form submission): replace name, date of birth, phone and
     * fingerprint of an existing voter; the id, the voted flag, the creation
     * time and the ledger stay as they were.
     */
    method AdminEdit(voterId: string, name: Option<string>, dob: Option<string>, phone: Option<string>,
                     fingerprint: Option<string>) returns (r: EditResult)
      requires Valid()
      modifies this
      ensures Valid()
      ensures r == EditVoterNotFound <==> voterId !in old(voters)
      ensures r == EditVoterNotFound ==> voters == old(voters)
      ensures r == VoterUpdated ==>
        && voterId in old(voters)
        && voters == old(voters)[voterId := old(voters)[voterId].(name := name, dob := dob, phone := phone, fingerprint := fingerprint)]
      ensures votes == old(votes)
      ensures old(OneBallotPerVoter()) ==> OneBallotPerVoter()
    {
      if voterId !in voters {
        return EditVoterNotFound;
      }
      voters := voters[voterId := voters[voterId].(name := name, dob := dob, phone := phone, fingerprint := fingerprint)];
      r := VoterUpdated;
    }

    /** `admin_delete`: remove the voter if present; an absent id is not an error. The ledger keeps its rows. */
    method AdminDelete(voterId: string)
      requires Valid()
      modifies this
      ensures Valid()
      ensures voters == old(voters) - {voterId}
      ensures votes == old(votes)
      ensures old(OneBallotPerVoter()) ==> OneBallotPerVoter()
    {
      voters := voters - {voterId};
    }

    /**
     * `admin_update_voted_status`: with the right password, flip an existing
     * voter's `has_voted` to `1 - has_voted`. A wrong or missing password and
     * an unknown voter change nothing.
     */
    method UpdateVotedStatus(voterId: string, password: Option<string>) returns (r: StatusResult)
      requires Valid()
      modifies this
      ensures Valid()
      ensures r == IncorrectPassword <==> password != Some(VotedStatusPassword)
      ensures r == StatusVoterNotFound <==> password == Some(VotedStatusPassword) && voterId !in old(voters)
      ensures !r.StatusUpdated? ==> voters == old(voters)
      ensures r.StatusUpdated? ==>
        && voterId in old(voters)
        && r.newStatus == 1 - old(voters)[voterId].hasVoted
        && voters == old(voters)[voterId := old(voters)[voterId].(hasVoted := r.newStatus)]
      ensures r.StatusUpdated? ==> voterId in voters && (Voted(voters[voterId]) <==> !Voted(old(voters)[voterId]))
      ensures votes == old(votes)
    {
      if password != Some(VotedStatusPassword) {
        return IncorrectPassword;
      }
      if voterId !in voters {
        return StatusVoterNotFound;
      }
      var newStatus := 1 - voters[voterId].hasVoted;
      voters := voters[voterId := voters[voterId].(hasVoted := newStatus)];
      r := StatusUpdated(newStatus);
    }
  }

  /**
   * Casting twice for the same voter: if the first call records a vote, the
   * second is rejected as already voted, and the ledger has grown by exactly
   * that one row.
   */
  method CastTwice(db: VotingDb, voterId: string, candidate: string, now1: string, now2: string)
    returns (first: CastResult, second: CastResult)
    requires db.Valid()
    modifies db
    ensures db.Valid()
    ensures first.VoteRecorded? ==> second == AlreadyVoted
    ensures first.VoteRecorded? ==>
      db.votes == old(db.votes) + [Vote(Strip(voterId), Strip(candidate), now1)]
    ensures !first.VoteRecorded? ==> second == first && db.votes == old(db.votes)
  {
    first := db.CastVote(voterId, candidate, now1);
    second := db.CastVote(voterId, candidate, now2);
  }

  /** Toggling a voter's status twice with the right password restores the registry. */
  method ToggleTwice(db: VotingDb, voterId: string) returns (first: StatusResult, second: StatusResult)
    requires db.Valid()
    modifies db
    ensures db.Valid()
    ensures db.voters == old(db.voters) && db.votes == old(db.votes)
    ensures voterId in old(db.voters) ==> first.StatusUpdated? && second.StatusUpdated?
  {
    first := db.UpdateVotedStatus(voterId, Some(VotedStatusPassword));
    second := db.UpdateVotedStatus(voterId, Some(VotedStatusPassword));
  }

  /**
   * The three steps are ordered only by the voting page: a registered voter
   * whom the QR check rejects as underage can still have a vote recorded by
   * calling the cast-vote handler directly.
   */
  method CastSkippingChecks(db: VotingDb, voterId: string, candidate: string,
                            parse: string -> Option<Date>, today: Date, now: string)
    returns (qr: QrResult, cast: CastResult)
    requires db.Valid()
    requires Strip(voterId) != [] && Strip(voterId) in db.voters && !Voted(db.voters[Strip(voterId)])
    requires CalculateAge(ParseDob(db.voters[Strip(voterId)].dob, parse), today) < VotingAge
    requires Strip(candidate) != []
    modifies db
    ensures qr.Underage? && cast.VoteRecorded?
  {
    qr := db.VerifyQr(voterId, parse, today);
    cast := db.CastVote(voterId, candidate, now);
  }

  /**
   * Deleting a voter leaves their ledger rows behind, and adding the same id
   * again creates a record that has not voted. Two rounds of add and cast,
   * with a delete in between, record two votes for one id.
   */
  method VoteAgainAfterReAdd(db: VotingDb, voterId: string, candidate: string,
                             name: Option<string>, dob: Option<string>, phone: Option<string>,
                             fingerprint: Option<string>, now1: string, now2: string)
    returns (first: CastResult, second: CastResult)
    requires db.Valid()
    requires voterId != [] && Strip(voterId) == voterId && Strip(candidate) != []
    modifies db
    ensures db.Valid()
    ensures first.VoteRecorded? && second.VoteRecorded?
    ensures voterId in db.voters && CountVotes(db.votes, voterId) == CountVotes(old(db.votes), voterId) + 2
    ensures !db.OneBallotPerVoter()
  {
    db.AdminDelete(voterId);
    var added := db.AdminAdd(voterId, name, dob, phone, fingerprint, now1);
    ghost var before := db.votes;
    first := db.CastVote(voterId, candidate, now1);
    CountVotesAppend(before, Vote(voterId, Strip(candidate), now1), voterId);
    db.AdminDelete(voterId);
    added := db.AdminAdd(voterId, name, dob, phone, fingerprint, now2);
    ghost var middle := db.votes;
    second := db.CastVote(voterId, candidate, now2);
    CountVotesAppend(middle, Vote(voterId, Strip(candidate), now2), voterId);
  }
}

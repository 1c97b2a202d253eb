# Smart voting machine: verified model of the voter registry and ballot ledger

`smart_voting_system.py` is a single-file Flask demo of a voting machine. Behind its
HTTP routes and SQL statements sit two tables:

- `voters`: the voter registry, keyed by a unique `voter_id`. Each row holds name,
  date of birth, phone and a fingerprint placeholder, all nullable text. It also holds
  the integer `has_voted` flag and a creation time.
- `votes`: the ballot ledger, rows of `(voter_id, candidate, timestamp)` that are only
  ever appended.

The voting page calls three handlers in order:

1. The QR check looks up the trimmed voter id and applies the voting-age gate (18).
2. The fingerprint check compares a payload string with the stored one.
3. Casting a vote appends a ledger row and sets `has_voted`.

The admin panel adds, edits and deletes voters, and flips `has_voted` behind a
password.

The model is the class `SmartVoting.VotingDb`. It holds the registry as a
`map<string, VoterRecord>` and the ledger as a `seq<Vote>`, and it has one method per
handler. Each method states its outcome and its whole new state in terms of the old
one. The object invariant `Valid()` keeps every `has_voted` in {0, 1}, so the status
toggle always turns a voted voter into a non-voted one and back. The ledger
invariant `OneBallotPerVoter()` says a registered voter has at most one vote, and
none while not marked as voted. Casting, editing and deleting preserve it. Adding
preserves it only when the ledger holds no rows for the new id. Two operations can
break it:

- the admin status override, when it resets a voter who has a vote;
- deleting a voter and adding the same id again. The deleted voter's ledger rows stay
  behind, and the new record starts as not voted, so a second vote for that id is
  recorded (`VoteAgainAfterReAdd`).

The pure parts are their own modules:

- `Age.CalculateAge` is the age computation. It is proved to be the number of
  completed years.
- `Text.Strip` is Python's `str.strip()`. The handlers apply it to request fields.

Inputs that the program obtains from libraries are parameters here:

- the date parser (`strptime` with `%Y-%m-%d`) is `parse`;
- today's date is `today`;
- the `utcnow()` timestamps are `now`.

Behaviours of the code that the model makes explicit:

- The voting page orders the QR, fingerprint and vote steps
  (`smart_voting_system.py:569-636`). The cast-vote handler checks only that the voter
  exists and has not voted (`smart_voting_system.py:696-702`). `CastSkippingChecks`
  shows an underage voter's vote being recorded by a direct call.
- The status route toggles `has_voted` to `1 - has_voted`
  (`smart_voting_system.py:849`).
- A birthday falling today counts as a completed year, so 2010-01-01 gives 15 on
  2025-01-01 (`smart_voting_system.py:98`, `BirthdayCountsToday`).
- A voter whose fingerprint column is NULL is matched by the empty payload. The voting
  page refuses empty payloads, but the handler does not (`VerifyFingerprint`).
- A NULL or unparsable date of birth gives age -1, so such a voter is always rejected
  as underage (`VerifyQr`).

## Model

| member | source | states |
|---|---|---|
| `Text.Strip` | smart_voting_system.py:654 | the result is `s` without leading and trailing whitespace (Python's `isspace` set): an infix of `s`, whatever was removed is whitespace, it is empty exactly when `s` is all whitespace, and otherwise starts and ends with a non-space |
| `Text.StripIdempotent` | smart_voting_system.py:691-692 | trimming an already trimmed id changes nothing, so the id the QR check returns (665) and the page sends back (607, 624) finds the same voter when the fingerprint and cast-vote handlers strip it again (673, 691) |
| `Age.CalculateAge` | smart_voting_system.py:91-99 | -1 for a date that does not parse; otherwise the year difference or one less, and exactly the largest n whose n-th anniversary is not after today |
| `Age.OldEnoughIffBirthdayReached` | smart_voting_system.py:662-663 | the age gate passes exactly when the date of birth parses and the 18th birthday is not after today; an unparsable date always fails it |
| `Age.AgeMonotone` | smart_voting_system.py:97-98 | for a fixed date of birth, a later "today" never gives a smaller age |
| `Age.BirthdayCountsToday` | smart_voting_system.py:98 | for every date of birth and year: on the birthday itself the age is the full year difference (the tuple comparison is strict), and on every earlier (month, day) of that year, month boundaries included, the age is one less |
| `SmartVoting.CountVotesAppend` | smart_voting_system.py:712 | appending one ledger row adds one to that voter's vote count and leaves every other voter's count unchanged |
| `SmartVoting.VotingDb.constructor` | smart_voting_system.py:62-81 | the database starts with both tables empty, satisfying both invariants |
| `SmartVoting.VotingDb.VerifyQr` | smart_voting_system.py:650-666 | blank trimmed id gives missing_voter_id; unknown id gives not_registered; computed age below 18 gives underage with that age; a NULL or unparsable date of birth (caught at 93-96) always gives underage with age -1; otherwise ok with the voter's id, name, dob, phone and voted flag; each outcome holds exactly under its condition, and nothing changes |
| `SmartVoting.VotingDb.VerifyFingerprint` | smart_voting_system.py:669-684 | blank id or absent payload gives missing_data; unknown voter gives voter_not_found; otherwise ok holds iff the untrimmed payload equals the stored fingerprint, NULL read as ""; nothing changes |
| `SmartVoting.VotingDb.CastVote` | smart_voting_system.py:687-724 | blank id or candidate, unknown voter, or already voted each reject exactly under their condition and change nothing; otherwise exactly one `(id, candidate, now)` row is appended, only that voter's `has_voted` becomes 1, and the one-ballot-per-voter invariant is preserved |
| `SmartVoting.VotingDb.AdminAdd` | smart_voting_system.py:768-792 | an existing id fails as a duplicate and leaves the registry unchanged; a new id gets a record with `has_voted` 0; the ledger is never touched |
| `SmartVoting.VotingDb.AdminEdit` | smart_voting_system.py:795-820 | an unknown id changes nothing; a known id gets new name, dob, phone and fingerprint while its id, `has_voted`, creation time and the ledger stay |
| `SmartVoting.VotingDb.AdminDelete` | smart_voting_system.py:823-833 | the registry loses exactly that id (a no-op when absent) and the ledger is unchanged |
| `SmartVoting.VotingDb.UpdateVotedStatus` | smart_voting_system.py:836-856 | a wrong or missing password changes nothing; an unknown voter changes nothing; otherwise only that voter's `has_voted` becomes `1 - has_voted`, which turns voted into not voted and back (the Yes/No reported at 852); the ledger is unchanged |
| `SmartVoting.CastTwice` | smart_voting_system.py:696-713 | two casts for the same voter: a recorded first vote is followed by already_voted, and the ledger grows by exactly one row |
| `SmartVoting.ToggleTwice` | smart_voting_system.py:846-850 | toggling a voter's status twice with the right password restores the registry |
| `SmartVoting.CastSkippingChecks` | smart_voting_system.py:696-702 | a registered, not-yet-voted voter whom the QR check rejects as underage still has a vote recorded by the cast-vote handler |
| `SmartVoting.VoteAgainAfterReAdd` | smart_voting_system.py:823-833 | deleting a voter (829) keeps their ledger rows and re-adding the id (781-784) starts it as not voted, so two add-and-cast rounds record two votes for one id and break the one-ballot-per-voter invariant |

## Left out

- HTTP routing, status codes, JSON and form decoding, the HTML/CSS/JavaScript pages, and the admin list page. These are UI and I/O. Each handler's result is a datatype variant.
- Admin login, logout and the session checks at the top of each admin route. These are framework session state. The admin user name and password are configuration.
- The SQLite connection and schema set-up. The tables are a map and a sequence. The `AUTOINCREMENT` row ids are not modelled; no modelled operation reads them.
- Date parsing with `strptime` and the current date and time from `utcnow()`. These are library calls and become the parameters `parse`, `today` and `now`.
- The simulated SMS and the logging after a vote. They do not affect any outcome.
- Concurrent requests. The cast-vote handler reads `has_voted` and writes it later without a transaction, so two simultaneous requests could both record a vote. The model is sequential and cannot express this race.
- A request whose `voter_id` or `candidate` is JSON null or not a string. The handler raises and the framework answers with a server error. An absent field is modelled as the empty string, which is the handler's default. A non-string fingerprint payload is not modelled.
- An admin add whose form lacks `voter_id`. That would insert a NULL key, which the UNIQUE constraint admits more than once and no lookup can find. The model's add always receives a text id.
- `SmartVoting.VotingDb.AdminAdd`: preserves the one-ballot-per-voter invariant only when the ledger holds no rows for the new id, because ledger rows of a deleted voter stay behind.
- No preservation of the one-ballot-per-voter invariant is claimed for `UpdateVotedStatus`. Resetting a voter who has a ledger row breaks it, which is what the override is for.

/**
 * The tracker's server (server.js) as one store object: the four SQLite
 * tables become fields, each route handler a method or function over them.
 * A request's clock reading is the `now` parameter; the random bytes behind a
 * new session token are a parameter as well.
 */
module Server {
  import opened Wrappers
  import opened Text
  import opened Js
  import opened Sessions
  import opened Ledger
  import opened Tags
  import opened History

  /** `CURRENT_TIMESTAMP`: a clock reading in milliseconds, cut to the whole second. */
  function CurrentTimestamp(now: int): (seconds: int)
    ensures seconds * 1000 <= now < seconds * 1000 + 1000
  {
    now / 1000
  }

  /** A later clock reading never gets an earlier timestamp. */
  lemma CurrentTimestampMonotone(a: int, b: int)
    requires a <= b
    ensures CurrentTimestamp(a) <= CurrentTimestamp(b)
  {
    assert CurrentTimestamp(a) * 1000 <= b;
  }

  /** All readings within one second get the same timestamp, so history rows can tie. */
  lemma SameSecondTies(second: int, ms: int)
    requires 0 <= ms < 1000
    ensures CurrentTimestamp(second * 1000 + ms) == second
  {
    var t := CurrentTimestamp(second * 1000 + ms);
    assert t * 1000 <= second * 1000 + ms < t * 1000 + 1000;
  }

  /** The error replies of the routes, with their HTTP status and `error` text. */
  datatype ApiError = Unauthorized | IncorrectPassword | TagAlreadyExists | SessionCreationFailed
  {
    function Status(): (code: int)
      ensures code == 401 <==> (this == Unauthorized || this == IncorrectPassword)
      ensures code == 400 <==> this == TagAlreadyExists
      ensures code == 500 <==> this == SessionCreationFailed
    {
      match this
      case Unauthorized => 401
      case IncorrectPassword => 401
      case TagAlreadyExists => 400
      case SessionCreationFailed => 500
    }

    function Message(): string {
      match this
      case Unauthorized => "Unauthorized"
      case IncorrectPassword => "Incorrect password"
      case TagAlreadyExists => "Tag already exists"
      case SessionCreationFailed => "Failed to create session"
    }
  }

  /** The body of a successful `POST /api/auth`. */
  datatype LoginReply = LoginReply(sessionToken: string, expiresAt: int)

  /** Kids: ascending rowids below the counter. */
  ghost predicate KidsHold(kids: seq<Kid>, nextId: int) {
    && 1 <= nextId
    && IdsAscending(kids)
    && (forall i :: 0 <= i < |kids| ==> 0 < kids[i].id < nextId)
  }

  /** Tags: ascending rowids below the counter, unique names, flags 0 or 1. */
  ghost predicate TagsHold(tags: seq<Tag>, nextId: int) {
    && 1 <= nextId
    && TagIdsAscending(tags)
    && (forall i :: 0 <= i < |tags| ==> 0 < tags[i].id < nextId)
    && NamesUnique(tags)
    && FlagsNormalised(tags)
  }

  /**
   * Transactions: ascending rowids below the counter, timestamps in insertion
   * order, every row attributed to a kid, and every balance the sum of its rows.
   */
  ghost predicate LedgerHolds(kids: seq<Kid>, txs: seq<Transaction>, nextId: int) {
    && 1 <= nextId
    && TxIdsAscending(txs)
    && (forall j :: 0 <= j < |txs| ==> 0 < txs[j].id < nextId)
    && TimesNonDecreasing(txs)
    && Attributed(kids, txs)
    && BalancesMatch(kids, txs)
  }

  /**
   * The two writes of `POST /api/transactions` together keep the ledger
   * invariant: the row appended with the next rowid and a timestamp not before
   * the others, and the same points credited to its (existing) kid.
   */
  lemma AddTransactionKeepsLedger(kids: seq<Kid>, txs: seq<Transaction>, nextId: int, entry: Transaction)
    requires LedgerHolds(kids, txs, nextId)
    requires entry.id == nextId && HasKid(kids, entry.kidId)
    requires forall j :: 0 <= j < |txs| ==> txs[j].timestamp <= entry.timestamp
    ensures LedgerHolds(Credit(kids, entry.kidId, entry.points), txs + [entry], nextId + 1)
  {
    var kids' := Credit(kids, entry.kidId, entry.points);
    var txs' := txs + [entry];
    CreditKeepsIds(kids, entry.kidId, entry.points);
    CreditKeepsBalancesMatch(kids, txs, entry);
    assert forall j :: 0 <= j < |txs| ==> txs'[j] == txs[j];
    assert Attributed(kids', txs');
  }

  /** A credit changes only a balance, so the kids table keeps its ids and their bounds. */
  lemma CreditKeepsKids(kids: seq<Kid>, nextId: int, kidId: int, points: int)
    requires KidsHold(kids, nextId)
    ensures KidsHold(Credit(kids, kidId, points), nextId)
  {
    CreditKeepsIds(kids, kidId, points);
  }

  /** The invariant of the whole store, over its tables and counters. */
  ghost predicate StoreHolds(password: string, kids: seq<Kid>, nextKidId: int, txs: seq<Transaction>, nextTxId: int,
                             tags: seq<Tag>, nextTagId: int) {
    password != "" && KidsHold(kids, nextKidId) && LedgerHolds(kids, txs, nextTxId) && TagsHold(tags, nextTagId)
  }

  /** Recording a transaction keeps the whole store invariant. */
  lemma RecordKeepsStore(password: string, kids: seq<Kid>, nextKidId: int, txs: seq<Transaction>, nextTxId: int,
                         tags: seq<Tag>, nextTagId: int, entry: Transaction)
    requires StoreHolds(password, kids, nextKidId, txs, nextTxId, tags, nextTagId)
    requires entry.id == nextTxId && HasKid(kids, entry.kidId)
    requires forall j :: 0 <= j < |txs| ==> txs[j].timestamp <= entry.timestamp
    ensures StoreHolds(password, Credit(kids, entry.kidId, entry.points), nextKidId, txs + [entry], nextTxId + 1, tags, nextTagId)
  {
    AddTransactionKeepsLedger(kids, txs, nextTxId, entry);
    CreditKeepsKids(kids, nextKidId, entry.kidId, entry.points);
  }

  /** Appending a tag with a new name and the next id keeps the tags invariant. */
  lemma AddTagKeepsTags(tags: seq<Tag>, nextId: int, row: Tag)
    requires TagsHold(tags, nextId)
    requires row.id == nextId && !HasTagNamed(tags, row.name)
    requires row.isPositive == 0 || row.isPositive == 1
    ensures TagsHold(tags + [row], nextId + 1)
  {
    AppendKeepsNamesUnique(tags, row);
  }

  /**
   * A kid update changes only display fields, so the kids table and the
   * ledger keep their invariants.
   */
  lemma RestyleKeepsInvariants(kids: seq<Kid>, nextKidId: int, txs: seq<Transaction>, nextTxId: int,
                               id: int, name: string, initials: string, color: string)
    requires KidsHold(kids, nextKidId) && LedgerHolds(kids, txs, nextTxId)
    ensures KidsHold(Restyle(kids, id, name, initials, color), nextKidId)
    ensures LedgerHolds(Restyle(kids, id, name, initials, color), txs, nextTxId)
  {
    var r := Restyle(kids, id, name, initials, color);
    RestyleKeepsLedger(kids, txs, id, name, initials, color);
    assert Attributed(r, txs);
  }

  class Store {
    /** `ADMIN_PASSWORD`, fixed when the process starts. */
    const adminPassword: string
    /** The `kids` table in rowid order, and its AUTOINCREMENT counter. */
    var kids: seq<Kid>
    var nextKidId: int
    /** The `transactions` table in rowid order, and its AUTOINCREMENT counter. */
    var transactions: seq<Transaction>
    var nextTransactionId: int
    /** The `tags` table in rowid order, and its AUTOINCREMENT counter. */
    var tags: seq<Tag>
    var nextTagId: int
    /** The `sessions` table, keyed by token. */
    var sessions: SessionTable

    ghost predicate Valid()
      reads this
    {
      StoreHolds(adminPassword, kids, nextKidId, transactions, nextTransactionId, tags, nextTagId)
    }

    /** The clock has not gone back behind any stored transaction. */
    predicate ClockNotBehind(now: int)
      reads this
    {
      forall j :: 0 <= j < |transactions| ==> transactions[j].timestamp <= CurrentTimestamp(now)
    }

    /** A fresh database: the four tables created empty. */
    constructor(adminEnv: Option<string>)
      ensures Valid()
      ensures adminPassword == AdminPassword(adminEnv)
      ensures kids == [] && transactions == [] && tags == [] && sessions == map[]
      ensures nextKidId == 1 && nextTransactionId == 1 && nextTagId == 1
    {
      adminPassword := AdminPassword(adminEnv);
      kids, nextKidId := [], 1;
      transactions, nextTransactionId := [], 1;
      tags, nextTagId := [], 1;
      sessions := map[];
    }

    /** Inserts `Kid 1` and `Kid 2` with balance 0 when `kids` is empty. */
    method SeedDefaultKids()
      requires Valid()
      modifies this`kids, this`nextKidId
      ensures Valid()
      ensures old(kids) == [] ==>
        && kids == [Kid(old(nextKidId), "Kid 1", "K1", "#FF6B6B", 0), Kid(old(nextKidId) + 1, "Kid 2", "K2", "#4ECDC4", 0)]
        && nextKidId == old(nextKidId) + 2
      ensures old(kids) != [] ==> kids == old(kids) && nextKidId == old(nextKidId)
    {
      if kids == [] {
        kids := [Kid(nextKidId, "Kid 1", "K1", "#FF6B6B", 0), Kid(nextKidId + 1, "Kid 2", "K2", "#4ECDC4", 0)];
        nextKidId := nextKidId + 2;
      }
    }

    /** Inserts `defaultTags` one row at a time when `tags` is empty. */
    method SeedDefaultTags()
      requires Valid()
      modifies this`tags, this`nextTagId
      ensures Valid()
      ensures old(tags) == [] ==>
        tags == DefaultRows(DEFAULT_TAGS, old(nextTagId)) && nextTagId == old(nextTagId) + |DEFAULT_TAGS|
      ensures old(tags) != [] ==> tags == old(tags) && nextTagId == old(nextTagId)
    {
      if tags == [] {
        var first := nextTagId;
        for i := 0 to |DEFAULT_TAGS|
          invariant tags == DefaultRows(DEFAULT_TAGS[..i], first)
          invariant nextTagId == first + i
        {
          var spec := DEFAULT_TAGS[i];
          assert DEFAULT_TAGS[..i + 1] == DEFAULT_TAGS[..i] + [spec];
          tags := tags + [Tag(nextTagId, spec.name, spec.color, spec.isPositive)];
          nextTagId := nextTagId + 1;
        }
        assert DEFAULT_TAGS[..|DEFAULT_TAGS|] == DEFAULT_TAGS;
        DefaultRowsValid(first);
      }
    }

    /** The startup purge of every session whose expiry is not after `now`. */
    method PurgeExpiredSessions(now: int)
      requires Valid()
      modifies this`sessions
      ensures Valid()
      ensures sessions == PurgeExpired(old(sessions), now)
    {
      sessions := PurgeExpired(sessions, now);
    }

    /** Process start: default kids, default tags, then the expired-session purge. */
    method Startup(now: int)
      requires Valid()
      modifies this`kids, this`nextKidId, this`tags, this`nextTagId, this`sessions
      ensures Valid()
      ensures old(kids) == [] ==>
        && kids == [Kid(old(nextKidId), "Kid 1", "K1", "#FF6B6B", 0), Kid(old(nextKidId) + 1, "Kid 2", "K2", "#4ECDC4", 0)]
        && nextKidId == old(nextKidId) + 2
      ensures old(kids) != [] ==> kids == old(kids) && nextKidId == old(nextKidId)
      ensures old(tags) == [] ==>
        tags == DefaultRows(DEFAULT_TAGS, old(nextTagId)) && nextTagId == old(nextTagId) + |DEFAULT_TAGS|
      ensures old(tags) != [] ==> tags == old(tags) && nextTagId == old(nextTagId)
      ensures transactions == old(transactions)
      ensures sessions == PurgeExpired(old(sessions), now)
    {
      SeedDefaultKids();
      SeedDefaultTags();
      PurgeExpiredSessions(now);
    }

    /**
     * `POST /api/auth`: a matching trimmed password stores a new session that
     * expires one year after `now` and returns its token; a token already in
     * the table makes the insert fail (500); a wrong password gets 401.
     */
    method Login(password: Option<string>, now: int, random: seq<Byte>) returns (r: Result<LoginReply, ApiError>)
      requires Valid()
      requires |random| == TOKEN_BYTES
      modifies this`sessions
      ensures Valid()
      ensures Trim(OrElse(password, "")) != adminPassword ==>
        r == Failure(IncorrectPassword) && sessions == old(sessions)
      ensures Trim(OrElse(password, "")) == adminPassword && NewSessionToken(random) in old(sessions) ==>
        r == Failure(SessionCreationFailed) && sessions == old(sessions)
      ensures Trim(OrElse(password, "")) == adminPassword && NewSessionToken(random) !in old(sessions) ==>
        && r == Success(LoginReply(NewSessionToken(random), now + SESSION_LIFETIME_MS))
        && sessions == old(sessions)[NewSessionToken(random) := SessionRow(CurrentTimestamp(now), now + SESSION_LIFETIME_MS)]
      ensures r.Success? ==> |r.value.sessionToken| == 64 && IsLive(sessions, r.value.sessionToken, now)
      ensures r.Failure? ==> (r.error.Status() == 401 <==> Trim(OrElse(password, "")) != adminPassword)
      ensures r.Failure? ==> (r.error.Status() == 500 <==> Trim(OrElse(password, "")) == adminPassword)
    {
      if Trim(OrElse(password, "")) == adminPassword {
        var token := NewSessionToken(random);
        var expiresAt := now + SESSION_LIFETIME_MS;
        if token in sessions {
          r := Failure(SessionCreationFailed);
        } else {
          sessions := sessions[token := SessionRow(CurrentTimestamp(now), expiresAt)];
          r := Success(LoginReply(token, expiresAt));
        }
      } else {
        r := Failure(IncorrectPassword);
      }
    }

    /**
     * `GET /api/session/validate` against the store's sessions table: valid
     * exactly for a non-empty live token, and such a token also passes
     * `authenticate`. Nothing is written.
     */
    function ValidateSessionRoute(tokenHeader: Option<string>, now: int): (r: ValidateReply)
      reads this
      requires Valid()
      ensures r.valid <==> r.status == 200
      ensures r.valid <==> OrElse(tokenHeader, "") != "" && IsLive(sessions, tokenHeader.value, now)
      ensures r.valid ==> Authorize(sessions, adminPassword, Credentials(None, tokenHeader), now)
    {
      var reply := ValidateSession(sessions, tokenHeader, now);
      if reply.valid then
        ValidatedTokenAuthorizes(sessions, adminPassword, tokenHeader, None, now);
        reply
      else reply
    }

    /** `GET /api/kids`: every kid, by ascending id. */
    function ListKids(): (r: seq<Kid>)
      reads this
      requires Valid()
      ensures IdsAscending(r)
      ensures |r| == |kids| && forall k :: k in r <==> k in kids
    {
      kids
    }

    /**
     * `PUT /api/kids/:id`: behind `authenticate`, sets the name, initials and
     * colour of the kid with that id; an unknown id changes nothing and the
     * reply is still `{success:true}`.
     */
    method UpdateKid(creds: Credentials, now: int, id: int, name: string, initials: string, color: string)
      returns (r: Result<(), ApiError>)
      requires Valid()
      modifies this`kids
      ensures Valid()
      ensures !Authorize(sessions, adminPassword, creds, now) ==> r == Failure(Unauthorized) && kids == old(kids)
      ensures Authorize(sessions, adminPassword, creds, now) ==>
        r == Success(()) && kids == Restyle(old(kids), id, name, initials, color)
      ensures !HasKid(old(kids), id) ==> kids == old(kids)
      ensures r.Failure? ==> r.error.Status() == 401
      ensures forall i :: 0 <= i < |kids| ==> kids[i].id == old(kids)[i].id && kids[i].balance == old(kids)[i].balance
    {
      if !Authorize(sessions, adminPassword, creds, now) {
        return Failure(Unauthorized);
      }
      RestyleKeepsInvariants(kids, nextKidId, transactions, nextTransactionId, id, name, initials, color);
      if !HasKid(kids, id) {
        RestyleUnknownIsNoop(kids, id, name, initials, color);
      }
      kids := Restyle(kids, id, name, initials, color);
      r := Success(());
    }

    /**
     * `POST /api/transactions`: behind `authenticate`, appends one history row
     * (tag `'General'` when missing or empty, note `''` when missing) and adds
     * `points` to the kid's balance; replies with the updated kid.
     */
    method AddTransaction(creds: Credentials, now: int, kidId: int, points: int, tag: Option<string>, note: Option<string>)
      returns (r: Result<Kid, ApiError>)
      requires Valid()
      requires Authorize(sessions, adminPassword, creds, now) ==> HasKid(kids, kidId) && ClockNotBehind(now)
      modifies this`kids, this`transactions, this`nextTransactionId
      ensures Valid()
      ensures !Authorize(sessions, adminPassword, creds, now) ==>
        r == Failure(Unauthorized) && kids == old(kids) && transactions == old(transactions)
        && nextTransactionId == old(nextTransactionId)
      ensures Authorize(sessions, adminPassword, creds, now) ==>
        && transactions == old(transactions)
             + [Transaction(old(nextTransactionId), kidId, points, OrElse(tag, "General"), OrElse(note, ""), CurrentTimestamp(now))]
        && nextTransactionId == old(nextTransactionId) + 1
        && kids == Credit(old(kids), kidId, points)
        && r == Success(FindKid(kids, kidId).value)
        && r.value.balance == old(FindKid(kids, kidId)).value.balance + points
      ensures r.Failure? ==> r.error.Status() == 401
    {
      if !Authorize(sessions, adminPassword, creds, now) {
        return Failure(Unauthorized);
      }
      var kid := Record(kidId, points, OrElse(tag, "General"), OrElse(note, ""), now);
      r := Success(kid);
    }

    /**
     * The two writes of an authorised `POST /api/transactions`: the history row
     * with the next rowid, the balance update, and the kid read back.
     */
    method Record(kidId: int, points: int, tag: string, note: string, now: int) returns (kid: Kid)
      requires Valid() && HasKid(kids, kidId) && ClockNotBehind(now)
      modifies this`kids, this`transactions, this`nextTransactionId
      ensures Valid()
      ensures transactions == old(transactions) + [Transaction(old(nextTransactionId), kidId, points, tag, note, CurrentTimestamp(now))]
      ensures nextTransactionId == old(nextTransactionId) + 1
      ensures kids == Credit(old(kids), kidId, points)
      ensures FindKid(kids, kidId) == Some(kid)
      ensures kid.balance == old(FindKid(kids, kidId)).value.balance + points
    {
      var entry := Transaction(nextTransactionId, kidId, points, tag, note, CurrentTimestamp(now));
      var credited := Credit(kids, kidId, points);
      FindKidAfterCredit(kids, kidId, points, FindKid(kids, kidId).value);
      RecordKeepsStore(adminPassword, kids, nextKidId, transactions, nextTransactionId, tags, nextTagId, entry);
      kids, transactions, nextTransactionId := credited, transactions + [entry], nextTransactionId + 1;
      kid := FindKid(credited, kidId).value;
    }

    /**
     * `GET /api/transactions?kid_id=&limit=`: at most `limit` (default 50) rows,
     * newest first, only of kids that exist, only of `kid_id` when given.
     */
    function ListTransactions(kidFilter: Option<int>, limit: Option<nat>): (r: seq<HistoryRow>)
      reads this
      requires Valid()
      ensures |r| <= (if limit.Some? then limit.value else DEFAULT_LIMIT)
      ensures NewestFirst(r)
      ensures forall row :: row in r ==> row.tx in transactions && Selected(kids, row.tx, kidFilter)
      ensures forall row :: row in r && kidFilter.Some? ==> row.tx.kidId == kidFilter.value
    {
      var cap := if limit.Some? then limit.value else DEFAULT_LIMIT;
      NewestSound(kids, transactions, kidFilter, cap);
      NewestOrdered(kids, transactions, kidFilter, cap);
      Newest(kids, transactions, kidFilter, cap)
    }

    /** `GET /api/tags`: every tag, ordered by name. */
    function ListTags(): (r: seq<Tag>)
      reads this
      ensures SortedByName(r)
      ensures multiset(r) == multiset(tags)
    {
      SortByName(tags)
    }

    /**
     * `POST /api/tags`: behind `authenticate`, inserts the tag with
     * `is_positive` stored as 1 or 0; a name already present violates the
     * UNIQUE constraint and the reply is 400 `Tag already exists`.
     */
    method AddTag(creds: Credentials, now: int, name: string, color: string, isPositive: JsValue)
      returns (r: Result<(), ApiError>)
      requires Valid()
      modifies this`tags, this`nextTagId
      ensures Valid()
      ensures !Authorize(sessions, adminPassword, creds, now) ==>
        r == Failure(Unauthorized) && tags == old(tags) && nextTagId == old(nextTagId)
      ensures Authorize(sessions, adminPassword, creds, now) && HasTagNamed(old(tags), name) ==>
        r == Failure(TagAlreadyExists) && tags == old(tags) && nextTagId == old(nextTagId)
      ensures Authorize(sessions, adminPassword, creds, now) && !HasTagNamed(old(tags), name) ==>
        && r == Success(())
        && tags == old(tags) + [Tag(old(nextTagId), name, color, PositiveFlag(isPositive))]
        && nextTagId == old(nextTagId) + 1
      ensures r.Failure? ==> r.error.Status() == if Authorize(sessions, adminPassword, creds, now) then 400 else 401
    {
      if !Authorize(sessions, adminPassword, creds, now) {
        return Failure(Unauthorized);
      }
      if HasTagNamed(tags, name) {
        return Failure(TagAlreadyExists);
      }
      var row := Tag(nextTagId, name, color, PositiveFlag(isPositive));
      AddTagKeepsTags(tags, nextTagId, row);
      tags, nextTagId := tags + [row], nextTagId + 1;
      r := Success(());
    }
  }
}

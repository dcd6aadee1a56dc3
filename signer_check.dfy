/** The signer-check service of `server.js`: an allow-list of signer addresses with an
    expiry each, parsed from `allowedsigner.txt`, and the `/checksigner` decision,
    which answers whether a whitelisted signer has produced a block recently enough
    according to the `signer` table the forward sync maintains. */
module SignerCheck {
  import opened Js
  import opened Chain
  import opened ForwardSync

  /** The freshness window, in minutes, when the request names none. */
  const DefaultTimeout: string := "45"

  /** Lower-cased signer address to `parseInt` of its expiry (`None` for `NaN`). */
  type AllowList = map<string, Option<int>>

  // ---------------------------------------------------------------- loadAllowedSigners

  /** The entry one line of the file contributes: the first two comma fields, when
      both are non-empty, as the lower-cased address and the parsed expiry. */
  function LineEntry(line: string): (e: Option<(string, Option<int>)>)
    ensures e.Some? <==> Split(line, ',')[0] != "" && |Split(line, ',')| >= 2 && Split(line, ',')[1] != ""
    ensures e.Some? ==> e.value == (Lower(Split(line, ',')[0]), ParseInt(Split(line, ',')[1]))
  {
    var fields := Split(line, ',');
    if fields[0] != "" && |fields| >= 2 && fields[1] != "" then Some((Lower(fields[0]), ParseInt(fields[1])))
    else None
  }

  /** The allow-list after the `forEach` has seen `lines`, starting from `{}`. */
  function Entries(lines: seq<string>): AllowList
  {
    if lines == [] then map[]
    else
      var m := Entries(lines[..|lines| - 1]);
      match LineEntry(lines[|lines| - 1])
      case None => m
      case Some((address, expiry)) => m[address := expiry]
  }

  /** `loadAllowedSigners`: rebuilt from empty, and empty when the file is missing. */
  function ParseAllowList(file: Option<string>): AllowList
  {
    match file
    case None => map[]
    case Some(text) => Entries(Split(text, '\n'))
  }

  /** The index of the last line that names `key`. */
  function LastEntry(lines: seq<string>, key: string): (i: Option<nat>)
    ensures i.Some? ==>
      && i.value < |lines|
      && LineEntry(lines[i.value]).Some? && LineEntry(lines[i.value]).value.0 == key
      && forall j :: i.value < j < |lines| ==> LineEntry(lines[j]).None? || LineEntry(lines[j]).value.0 != key
    ensures i.None? ==> forall j :: 0 <= j < |lines| ==> LineEntry(lines[j]).None? || LineEntry(lines[j]).value.0 != key
  {
    if lines == [] then None
    else
      var last := |lines| - 1;
      if LineEntry(lines[last]).Some? && LineEntry(lines[last]).value.0 == key then Some(last)
      else
        var i := LastEntry(lines[..last], key);
        assert forall j :: 0 <= j < last ==> lines[..last][j] == lines[j];
        i
  }

  /** An address is on the list exactly when some line names it (lower-cased) with
      two non-empty fields, and then its expiry is that of the last such line. */
  lemma {:induction false} EntriesLastLineWins(lines: seq<string>, key: string)
    ensures match LastEntry(lines, key)
      case None => key !in Entries(lines)
      case Some(i) => key in Entries(lines) && Entries(lines)[key] == LineEntry(lines[i]).value.1
  {
    if lines != [] {
      var last := |lines| - 1;
      EntriesLastLineWins(lines[..last], key);
      assert forall j :: 0 <= j < last ==> lines[..last][j] == lines[j];
    }
  }

  /** Every key on the list is lower-cased, so the lower-cased lookup of the handler
      finds an entry whatever the case it was written in. */
  lemma {:induction false} EntriesAreLowerCase(lines: seq<string>)
    ensures forall k :: k in Entries(lines) ==> Lower(k) == k
  {
    if lines != [] {
      EntriesAreLowerCase(lines[..|lines| - 1]);
      match LineEntry(lines[|lines| - 1])
      case None =>
      case Some((address, _)) =>
        LowerIdempotent(Split(lines[|lines| - 1], ',')[0]);
    }
  }

  // ---------------------------------------------------------------- /checksigner

  /** `parseInt(req.query.timeout || '45', 10) * 60`: a missing or empty timeout means
      45 minutes, and one `parseInt` cannot read leaves the window `NaN`. */
  function ErrorAfter(timeout: Option<string>): (w: Option<int>)
    ensures timeout.None? || timeout.value == "" ==> w == Some(2700)
    ensures timeout.Some? && timeout.value != "" ==>
      (w.None? <==> ParseInt(timeout.value).None?) && (w.Some? ==> w.value == ParseInt(timeout.value).value * 60)
  {
    var text := if timeout.None? || timeout.value == "" then DefaultTimeout else timeout.value;
    ParseIntDecimal(45);
    assert IntToDecimal(45) == NatToDecimal(4) + [DigitChar(5)] == DefaultTimeout;
    match ParseInt(text)
    case None => None
    case Some(minutes) => Some(minutes * 60)
  }

  /** `allowedSigners[addressLower]` is truthy: present, neither `NaN` nor 0. */
  predicate Listed(allow: AllowList, key: string)
  {
    key in allow && allow[key].Some? && allow[key].value != 0
  }

  /** `currentTime - lastTimestamp > errorAfter`; never true for a `NaN` window. */
  predicate Stale(errorAfter: Option<int>, now: int, last: int)
  {
    errorAfter.Some? && now - last > errorAfter.value
  }

  /** The handler's answers. */
  datatype Outcome =
    | AddressRequired              // 400
    | NotWhitelisted               // 404, on the cached list
    | NotWhitelistedAfterReload    // 404, after the reload of an expired entry
    | DatabaseError                // 500
    | Outdated(minutes: Option<int>)  // 400, `errorAfter / 60` in the message
    | Validated(lastTimestamp: int)   // 200
    | NotInDatabase                // 404

  function Status(o: Outcome): (code: int)
    ensures code == 200 <==> o.Validated?
    ensures code == 400 <==> o.AddressRequired? || o.Outdated?
    ensures code == 404 <==> o.NotWhitelisted? || o.NotWhitelistedAfterReload? || o.NotInDatabase?
    ensures code == 500 <==> o.DatabaseError?
  {
    match o
    case AddressRequired => 400
    case NotWhitelisted => 404
    case NotWhitelistedAfterReload => 404
    case DatabaseError => 500
    case Outdated(_) => 400
    case Validated(_) => 200
    case NotInDatabase => 404
  }

  /** An answer and the allow-list the service keeps afterwards. */
  datatype Reply = Reply(outcome: Outcome, allowedSigners: AllowList)

  /** The database callback: `SELECT timestamp FROM signer WHERE signer_address = ?`. */
  function DatabaseAnswer(key: string, errorAfter: Option<int>, now: int, db: Fetch<SignerTable>): Outcome
  {
    match db
    case Failed => DatabaseError
    case Got(table) =>
      if key !in table then NotInDatabase
      else if Stale(errorAfter, now, table[key].timestamp) then
        Outdated(if errorAfter.Some? then Some(errorAfter.value / 60) else None)
      else Validated(table[key].timestamp)
  }

  /** The `/checksigner` handler. `now` is `Math.floor(Date.now() / 1000)`, `reloaded`
      the allow-list file as a reload would read it, and `db` what the query answers. */
  function CheckSigner(address: Option<string>, timeout: Option<string>, now: int, allow: AllowList,
                       reloaded: Option<string>, db: Fetch<SignerTable>): Reply
  {
    var errorAfter := ErrorAfter(timeout);
    if address.None? || address.value == "" then Reply(AddressRequired, allow)
    else
      var key := Lower(address.value);
      if !Listed(allow, key) then Reply(NotWhitelisted, allow)
      else if now > allow[key].value then
        var current := ParseAllowList(reloaded);
        if !Listed(current, key) then Reply(NotWhitelistedAfterReload, current)
        else Reply(DatabaseAnswer(key, errorAfter, now, db), current)
      else Reply(DatabaseAnswer(key, errorAfter, now, db), allow)
  }

  // ---------------------------------------------------------------- properties

  /** The address whose entry is consulted and whose row is read: the request's,
      lower-cased, once it is truthy. */
  function Key(address: Option<string>): Option<string>
  {
    if address.None? || address.value == "" then None else Some(Lower(address.value))
  }

  /** The list in force when the database is asked: the cached one, or the reloaded
      one if the cached entry had expired. */
  function ListInForce(key: string, now: int, allow: AllowList, reloaded: Option<string>): AllowList
    requires Listed(allow, key)
  {
    if now > allow[key].value then ParseAllowList(reloaded) else allow
  }

  /** The handler answers 200 exactly when the address is truthy, its entry is truthy
      on the cached list and, if that entry has expired, still truthy after the reload,
      the query succeeds and finds a row, and the row is no older than the window;
      it then answers with that row's timestamp. */
  lemma ValidatedExactly(address: Option<string>, timeout: Option<string>, now: int, allow: AllowList,
                         reloaded: Option<string>, db: Fetch<SignerTable>)
    ensures var r := CheckSigner(address, timeout, now, allow, reloaded, db);
      var key := Key(address);
      r.outcome.Validated? <==>
        && key.Some?
        && Listed(allow, key.value)
        && Listed(ListInForce(key.value, now, allow, reloaded), key.value)
        && db.Got? && key.value in db.value
        && !Stale(ErrorAfter(timeout), now, db.value[key.value].timestamp)
    ensures var r := CheckSigner(address, timeout, now, allow, reloaded, db);
      r.outcome.Validated? ==> r.outcome.lastTimestamp == db.value[Key(address).value].timestamp
  {
  }

  /** Once the request is admitted by the allow-list, the database alone decides the
      answer: 500 on a query error, 404 without a row, 400 for a row older than the
      window, 200 otherwise. An expired entry that is still listed after the reload is
      admitted, not rejected. */
  lemma AdmittedGoesToDatabase(address: Option<string>, timeout: Option<string>, now: int, allow: AllowList,
                               reloaded: Option<string>, db: Fetch<SignerTable>)
    requires Key(address).Some? && Listed(allow, Key(address).value)
    requires Listed(ListInForce(Key(address).value, now, allow, reloaded), Key(address).value)
    ensures var o := CheckSigner(address, timeout, now, allow, reloaded, db).outcome;
      var key := Key(address).value;
      && (o.DatabaseError? <==> db.Failed?)
      && (o.NotInDatabase? <==> db.Got? && key !in db.value)
      && (o.Outdated? <==> db.Got? && key in db.value && Stale(ErrorAfter(timeout), now, db.value[key].timestamp))
      && (o.Outdated? ==> o.minutes.Some? && o.minutes.value * 60 == ErrorAfter(timeout).value)
  {
    var errorAfter := ErrorAfter(timeout);
    if errorAfter.Some? {
      assert ErrorAfter(timeout).value / 60 * 60 == ErrorAfter(timeout).value by {
        if timeout.None? || timeout.value == "" {
        } else {
          var minutes := ParseInt(timeout.value).value;
          assert errorAfter.value == minutes * 60;
        }
      }
    }
  }

  /** A missing or empty address is refused with 400; a falsy entry (missing, 0 or
      `NaN`) with 404, without a reload; in both cases nothing else happens. */
  lemma RejectedBeforeDatabase(address: Option<string>, timeout: Option<string>, now: int, allow: AllowList,
                               reloaded: Option<string>, db: Fetch<SignerTable>)
    ensures var r := CheckSigner(address, timeout, now, allow, reloaded, db);
      && (Key(address).None? ==> r == Reply(AddressRequired, allow) && Status(r.outcome) == 400)
      && (Key(address).Some? && !Listed(allow, Key(address).value) ==>
            r == Reply(NotWhitelisted, allow) && Status(r.outcome) == 404)
  {
  }

  /** The list is reloaded exactly when the request reaches a cached entry that has
      expired; the service then keeps the reloaded list, whatever the answer. */
  lemma ReloadOnlyWhenExpired(address: Option<string>, timeout: Option<string>, now: int, allow: AllowList,
                              reloaded: Option<string>, db: Fetch<SignerTable>)
    ensures var r := CheckSigner(address, timeout, now, allow, reloaded, db);
      var key := Key(address);
      r.allowedSigners ==
        if key.Some? && Listed(allow, key.value) && now > allow[key.value].value then ParseAllowList(reloaded)
        else allow
    ensures var r := CheckSigner(address, timeout, now, allow, reloaded, db);
      r.outcome.NotWhitelistedAfterReload? <==>
        && Key(address).Some? && Listed(allow, Key(address).value) && now > allow[Key(address).value].value
        && !Listed(ParseAllowList(reloaded), Key(address).value)
  {
  }

  /** A timeout `parseInt` cannot read makes the window `NaN`, and no row is then ever
      too old: an admitted address with a row gets 200 whatever the row's age. */
  lemma UnreadableTimeoutNeverOutdated(address: Option<string>, timeout: Option<string>, now: int,
                                       allow: AllowList, reloaded: Option<string>, db: Fetch<SignerTable>)
    requires timeout.Some? && timeout.value != "" && ParseInt(timeout.value).None?
    ensures !CheckSigner(address, timeout, now, allow, reloaded, db).outcome.Outdated?
    ensures var key := Key(address);
      key.Some? && Listed(allow, key.value) && Listed(ListInForce(key.value, now, allow, reloaded), key.value) &&
      db.Got? && key.value in db.value ==>
        CheckSigner(address, timeout, now, allow, reloaded, db).outcome == Validated(db.value[key.value].timestamp)
  {
  }

  /** Two spellings of the same address differing only in letter case get the same
      answer and leave the same list. */
  lemma CaseInsensitive(a: string, b: string, timeout: Option<string>, now: int, allow: AllowList,
                        reloaded: Option<string>, db: Fetch<SignerTable>)
    requires Lower(a) == Lower(b)
    ensures CheckSigner(Some(a), timeout, now, allow, reloaded, db) == CheckSigner(Some(b), timeout, now, allow, reloaded, db)
  {
    assert |a| == |Lower(a)| == |Lower(b)| == |b|;
  }

  // ---------------------------------------------------------------- the service

  /** The process's state: the cached allow-list. */
  class SignerCheckService {
    var allowedSigners: AllowList

    constructor(file: Option<string>)
      ensures allowedSigners == ParseAllowList(file)
    {
      allowedSigners := map[];
      new;
      LoadAllowedSigners(file);
    }

    /** `loadAllowedSigners`, given the file's content (`None` when it does not exist). */
    method LoadAllowedSigners(file: Option<string>)
      modifies this
      ensures allowedSigners == ParseAllowList(file)
    {
      allowedSigners := map[];
      if file.Some? {
        var lines := Split(file.value, '\n');
        for i := 0 to |lines|
          invariant allowedSigners == Entries(lines[..i])
        {
          var fields := Split(lines[i], ',');
          var signerAddress := fields[0];
          var expiryTimestamp := if |fields| >= 2 then fields[1] else "";
          if signerAddress != "" && expiryTimestamp != "" {
            allowedSigners := allowedSigners[Lower(signerAddress) := ParseInt(expiryTimestamp)];
          }
          assert lines[..i + 1][..i] == lines[..i];
        }
        assert lines[..|lines|] == lines;
      }
    }

    /** `GET /checksigner`. */
    method HandleCheckSigner(address: Option<string>, timeout: Option<string>, now: int,
                             reloaded: Option<string>, db: Fetch<SignerTable>) returns (outcome: Outcome)
      modifies this
      ensures Reply(outcome, allowedSigners) == CheckSigner(address, timeout, now, old(allowedSigners), reloaded, db)
    {
      var errorAfter := ErrorAfter(timeout);
      if address.None? || address.value == "" {
        return AddressRequired;
      }
      var addressLower := Lower(address.value);
      if !Listed(allowedSigners, addressLower) {
        return NotWhitelisted;
      }
      var expiryTimestamp := allowedSigners[addressLower].value;
      if now > expiryTimestamp {
        LoadAllowedSigners(reloaded);
        if !Listed(allowedSigners, addressLower) {
          return NotWhitelistedAfterReload;
        }
      }
      outcome := DatabaseAnswer(addressLower, errorAfter, now, db);
    }
  }
}

/**
 * Two end-to-end runs built only from the contracts of the commands and
 * handlers: the activate/revoke life of one license through the chat
 * commands, and an unauthenticated browser session against the web API.
 */
module Scenarios {
  import opened Options
  import opened Registry
  import opened Platform
  import KeyGenerator
  import ActivateCommand
  import RevokeCommand
  import WebApi

  /**
   * User "u1" ("alice") activates on an empty table, activates again and is
   * told the same key; admin "admin1" revokes, and a second revoke reports
   * the first revocation unchanged.
   */
  method LicenseLifecycle(table: LicenseTable, random: seq<seq<KeyGenerator.byte>>, again: seq<seq<KeyGenerator.byte>>,
                          t0: nat, t1: nat, t2: nat, t3: nat, guild: Guild)
    returns (first: ActivateCommand.Reply, second: ActivateCommand.Reply,
             revoked: RevokeCommand.Reply, revokedAgain: RevokeCommand.Reply)
    requires table.Valid() && table.rows == []
    requires KeyGenerator.WellFormedRandom(random) && KeyGenerator.WellFormedRandom(again)
    modifies table
    ensures first == ActivateCommand.Activated || first == ActivateCommand.PartialActivation(KeyGenerator.LicenseKey(random))
    ensures second == ActivateCommand.AlreadyActivated(KeyGenerator.LicenseKey(random), Active, t0)
    ensures revoked == RevokeCommand.LicenseRevoked(KeyGenerator.LicenseKey(random))
    ensures revokedAgain == RevokeCommand.AlreadyRevoked(Some(t2), Some("admin1"))
    ensures |table.rows| == 1 && table.rows[0].status == Revoked && table.rows[0].revokedBy == Some("admin1")
  {
    var key := KeyGenerator.LicenseKey(random);
    var calls;
    first, calls := ActivateCommand.Execute(table, "u1", "alice", random, t0, guild);
    var row := table.rows[0];
    assert table.rows == [row];
    LookupAfterInsert([], row, "u1");
    second, calls := ActivateCommand.Execute(table, "u1", "alice", again, t1, guild);
    LookupAfterRevoke(table.rows, "u1", "admin1", t2, "u1");
    revoked, calls := RevokeCommand.Execute(table, "u1", "admin1", t2, guild);
    revokedAgain, calls := RevokeCommand.Execute(table, "u1", "admin1", t3, guild);
  }

  /**
   * A fresh session: a wrong password gets 401 and leaves it unauthenticated,
   * and the license list then answers 401 whatever the query.
   */
  method UnauthenticatedBrowser(table: LicenseTable, adminPassword: string, attempt: string, query: WebApi.ListQuery)
    returns (login: WebApi.Response, list: WebApi.Response)
    requires adminPassword != "" && attempt != adminPassword
    ensures login.status == 401 && list == WebApi.Unauthorized
  {
    var session := new WebApi.Session();
    login := WebApi.Login(session, Some(attempt), adminPassword);
    list := WebApi.ListLicenses(session, table, query);
  }
}

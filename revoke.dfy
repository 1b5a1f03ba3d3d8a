/**
 * The `/revoke` command: report a missing or already revoked license, or
 * revoke it and then, best effort, take the marker role from the target.
 */
module RevokeCommand {
  import opened Options
  import opened Registry
  import opened Platform

  datatype Reply =
    | LicenseNotFound
    | AlreadyRevoked(revokedAt: Option<nat>, revokedBy: Option<string>)
    | LicenseRevoked(licenseKey: string)

  /**
   * One run of `/revoke` by the administrator `adminId` against the user
   * `targetId`, at clock `now`.
   */
  method Execute(table: LicenseTable, targetId: string, adminId: string, now: nat, guild: Guild)
    returns (reply: Reply, calls: seq<Call>)
    requires table.Valid()
    modifies table
    ensures table.Valid()
    ensures table.nextId == old(table.nextId)
    // No license: "License Not Found", nothing changes.
    ensures old(GetLicenseByUserId(table.rows, targetId)).None? ==>
      reply == LicenseNotFound && calls == [LookupLicense(targetId)] && table.rows == old(table.rows)
    // Already revoked: the stored metadata is reported, `revokeLicense` is not called.
    ensures var prior := old(GetLicenseByUserId(table.rows, targetId));
      prior.Some? && prior.value.status == Revoked ==>
        && reply == AlreadyRevoked(prior.value.revokedAt, prior.value.revokedBy)
        && calls == [LookupLicense(targetId)]
        && table.rows == old(table.rows)
    // Otherwise exactly one revoke by the invoker, then only platform calls, and the revoked key is reported.
    ensures var prior := old(GetLicenseByUserId(table.rows, targetId));
      prior.Some? && prior.value.status == Active ==>
        && table.rows == RevokeRows(old(table.rows), targetId, adminId, now)
        && |calls| >= 2
        && calls[..2] == [LookupLicense(targetId), RevokeLicense(targetId, adminId)]
        && (forall k :: 2 <= k < |calls| ==> calls[k].IsPlatformCall())
        && reply == LicenseRevoked(prior.value.licenseKey)
    // The role is removed only when the role exists and the member holds it; a failure there changes no reply.
    ensures RemoveRole(targetId) in calls <==>
      && old(GetLicenseByUserId(table.rows, targetId)).Some?
      && old(GetLicenseByUserId(table.rows, targetId)).value.status == Active
      && guild.memberFetchOk && guild.licensedRoleCached && guild.memberHasRole
  {
    calls := [LookupLicense(targetId)];
    var license := GetLicenseByUserId(table.rows, targetId);
    if license.None? {
      reply := LicenseNotFound;
      return;
    }
    if license.value.status == Revoked {
      reply := AlreadyRevoked(license.value.revokedAt, license.value.revokedBy);
      return;
    }

    var revokedLicense := table.RevokeLicense(targetId, adminId, now);
    calls := calls + [RevokeLicense(targetId, adminId)];

    // The try block; its catch only logs.
    calls := calls + [FetchMember(targetId)];
    if guild.memberFetchOk && guild.licensedRoleCached && guild.memberHasRole {
      calls := calls + [RemoveRole(targetId)];
    }

    reply := LicenseRevoked(revokedLicense.value.licenseKey);
  }

  /**
   * Two `/revoke` runs against the same active license: the first revokes it,
   * the second answers "Already Revoked" with the first run's time and
   * administrator, and the table is as the first run left it.
   */
  method RevokeTwice(table: LicenseTable, targetId: string, firstAdmin: string, secondAdmin: string,
                     t1: nat, t2: nat, guild: Guild)
    returns (first: Reply, second: Reply)
    requires table.Valid()
    requires GetLicenseByUserId(table.rows, targetId).Some?
    requires GetLicenseByUserId(table.rows, targetId).value.status == Active
    modifies table
    ensures table.Valid()
    ensures table.nextId == old(table.nextId)
    ensures first == LicenseRevoked(old(GetLicenseByUserId(table.rows, targetId)).value.licenseKey)
    ensures second == AlreadyRevoked(Some(t1), Some(firstAdmin))
    ensures table.rows == RevokeRows(old(table.rows), targetId, firstAdmin, t1)
  {
    LookupAfterRevoke(table.rows, targetId, firstAdmin, t1, targetId);
    var calls;
    first, calls := Execute(table, targetId, firstAdmin, t1, guild);
    second, calls := Execute(table, targetId, secondAdmin, t2, guild);
  }
}

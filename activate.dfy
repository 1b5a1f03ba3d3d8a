/**
 * The `/activate` command: report an existing license, or generate a key,
 * create the license and then, best effort, give the caller the marker role
 * and send the key by direct message.
 */
module ActivateCommand {
  import opened Options
  import opened Registry
  import opened Platform
  import KeyGenerator

  datatype Reply =
    | AlreadyActivated(licenseKey: string, status: Status, activatedAt: nat)
    | ActivationFailed
    | Activated
    | PartialActivation(licenseKey: string)

  /** Every platform step after the license is created succeeds. */
  predicate SideEffectsSucceed(guild: Guild) {
    guild.memberFetchOk && (guild.licensedRoleCached || guild.roleCreateOk) && guild.roleAddOk && guild.dmOk
  }

  /**
   * One run of `/activate` for the caller `userId` (display tag `username`),
   * with `random` the bytes the key generator draws and `now` the clock.
   */
  method Execute(table: LicenseTable, userId: string, username: string,
                 random: seq<seq<KeyGenerator.byte>>, now: nat, guild: Guild)
    returns (reply: Reply, calls: seq<Call>)
    requires table.Valid()
    requires KeyGenerator.WellFormedRandom(random)
    modifies table
    ensures table.Valid()
    // An existing license is reported as it is; nothing is created.
    ensures var prior := old(GetLicenseByUserId(table.rows, userId));
      prior.Some? ==>
        && reply == AlreadyActivated(prior.value.licenseKey, prior.value.status, prior.value.activatedAt)
        && calls == [LookupLicense(userId)]
        && table.rows == old(table.rows) && table.nextId == old(table.nextId)
    // Otherwise one key is generated and exactly one create is attempted with it.
    ensures var prior, key := old(GetLicenseByUserId(table.rows, userId)), KeyGenerator.LicenseKey(random);
      prior.None? ==>
        && table.nextId == old(table.nextId) + 1
        && |calls| >= 3
        && calls[..3] == [LookupLicense(userId), GenerateKey, CreateLicense(userId, username, key)]
        && (forall k :: 3 <= k < |calls| ==> calls[k].IsPlatformCall())
    // A refused create: "Activation Failed", no platform call, table unchanged.
    ensures var prior, key := old(GetLicenseByUserId(table.rows, userId)), KeyGenerator.LicenseKey(random);
      prior.None? && Conflicts(old(table.rows), userId, key) ==>
        reply == ActivationFailed && |calls| == 3 && table.rows == old(table.rows)
    // A created license stays, whatever the platform does afterwards.
    ensures var prior, key := old(GetLicenseByUserId(table.rows, userId)), KeyGenerator.LicenseKey(random);
      prior.None? && !Conflicts(old(table.rows), userId, key) ==>
        && table.rows == old(table.rows) + [NewLicense(old(table.nextId), userId, username, key, now)]
        && reply == (if SideEffectsSucceed(guild) then Activated else PartialActivation(key))
    // The role is created only when none is cached; the DM carries the generated key.
    ensures CreateRole in calls ==> !guild.licensedRoleCached
    ensures reply == Activated ==> SendKey(userId, KeyGenerator.LicenseKey(random)) in calls
    ensures reply == Activated <==>
      old(GetLicenseByUserId(table.rows, userId)).None? &&
      !Conflicts(old(table.rows), userId, KeyGenerator.LicenseKey(random)) && SideEffectsSucceed(guild)
  {
    calls := [LookupLicense(userId)];
    var existing := GetLicenseByUserId(table.rows, userId);
    if existing.Some? {
      reply := AlreadyActivated(existing.value.licenseKey, existing.value.status, existing.value.activatedAt);
      return;
    }

    var licenseKey := KeyGenerator.GenerateLicenseKey(random);
    calls := calls + [GenerateKey, CreateLicense(userId, username, licenseKey)];
    var license := table.CreateLicense(userId, username, licenseKey, now);
    if license.None? {
      reply := ActivationFailed;
      return;
    }

    // The try block: the first failing step jumps to the "Partial Activation" reply.
    reply := PartialActivation(licenseKey);
    calls := calls + [FetchMember(userId)];
    if !guild.memberFetchOk {
      return;
    }
    var activatedRole := guild.licensedRoleCached;
    if !activatedRole {
      calls := calls + [CreateRole];
      if !guild.roleCreateOk {
        return;
      }
      activatedRole := true;
    }
    calls := calls + [AddRole(userId)];
    if !guild.roleAddOk {
      return;
    }
    calls := calls + [SendKey(userId, licenseKey)];
    if !guild.dmOk {
      return;
    }
    reply := Activated;
  }
}

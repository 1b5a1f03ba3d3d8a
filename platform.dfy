/**
 * What the chat commands see of the chat platform. Every platform call is
 * fallible; a `Guild` value says, for one command run, which of them succeed
 * and what the role cache holds. A command returns the log of the registry
 * and platform calls it made, in order.
 */
module Platform {

  /** The marker role's name. */
  const LicensedRole: string := "Licensed User"

  datatype Guild = Guild(
    memberFetchOk: bool,       // `guild.members.fetch(userId)` resolves
    licensedRoleCached: bool,  // `guild.roles.cache.find(name === 'Licensed User')` finds one
    memberHasRole: bool,       // the fetched member already holds that role
    roleCreateOk: bool,        // `guild.roles.create(...)` resolves
    roleAddOk: bool,           // `member.roles.add(role)` resolves
    roleRemoveOk: bool,        // `member.roles.remove(role)` resolves
    dmOk: bool)                // `user.send(...)` resolves

  datatype Call =
    | LookupLicense(userId: string)
    | GenerateKey
    | CreateLicense(userId: string, username: string, key: string)
    | RevokeLicense(userId: string, revokedBy: string)
    | ListLicenses(limit: nat, offset: nat)
    | FetchMember(userId: string)
    | CreateRole
    | AddRole(userId: string)
    | RemoveRole(userId: string)
    | SendKey(userId: string, key: string)
  {
    /** A call into the chat platform rather than into the registry or the key generator. */
    predicate IsPlatformCall() {
      FetchMember? || CreateRole? || AddRole? || RemoveRole? || SendKey?
    }
  }
}

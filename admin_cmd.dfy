/**
 * The admin commands of contrib/admin/create_admin_cmd.go and
 * update_admin_cmd.go, which turn a request into an `Admin` record and
 * one `AdminRole` link per requested role. Both records are objects: the
 * service later writes the new admin's ID into each role link through
 * its pointer. Password hashing and the unique-code generator are outside
 * the model; their outcomes are parameters.
 */
module AdminCommands {
  import opened Wrappers

  /** `Admin`, without its timestamps. */
  class Admin {
    var id: nat
    var account: string
    var password: string
    var name: string
    var mobile: string
    var code: string
    var active: bool

    constructor (id: nat, account: string, name: string, mobile: string, code: string, active: bool)
      ensures this.id == id && this.account == account && this.name == name
      ensures this.mobile == mobile && this.code == code && this.active == active
      ensures password == ""
    {
      this.id := id;
      this.account := account;
      this.name := name;
      this.mobile := mobile;
      this.code := code;
      this.active := active;
      password := "";
    }

    /**
     * `Admin.SetPassword`: stores the hash of the password; when hashing
     * fails (`hash` is the hashing library's answer) the error is returned
     * and the stored password stays as it was.
     */
    method SetPassword(hash: Result<string, string>) returns (err: Option<string>)
      modifies this`password
      ensures hash.Success? ==> err == None && password == hash.value
      ensures hash.Failure? ==> err == Some(hash.error) && password == old(password)
    {
      if hash.Failure? {
        return Some(hash.error);
      }
      password := hash.value;
      return None;
    }
  }

  /** `AdminRole`: the link between an admin and one role. */
  class AdminRole {
    var id: nat
    var adminID: nat
    var roleID: nat

    /** `&AdminRole{RoleID: roleID}`: the other fields are zero. */
    constructor (roleID: nat)
      ensures id == 0 && adminID == 0 && this.roleID == roleID
    {
      id := 0;
      adminID := 0;
      this.roleID := roleID;
    }
  }

  /** A slice of role links in which every pointer is set. */
  predicate AllSet(links: seq<AdminRole?>) {
    forall k :: 0 <= k < |links| ==> links[k] != null
  }

  /** The role IDs the links point to, in order. */
  function RoleIDs(links: seq<AdminRole?>): (r: seq<nat>)
    requires AllSet(links)
    reads set k | 0 <= k < |links| :: links[k]
    ensures |r| == |links| && forall k :: 0 <= k < |links| ==> r[k] == links[k].roleID
  {
    if links == [] then [] else RoleIDs(links[..|links| - 1]) + [links[|links| - 1].roleID]
  }

  /** Role links that are distinct objects, not yet tied to an admin or stored. */
  predicate Unsaved(links: seq<AdminRole?>)
    requires AllSet(links)
    reads set k | 0 <= k < |links| :: links[k]
  {
    && (forall k :: 0 <= k < |links| ==> links[k].id == 0 && links[k].adminID == 0)
    && (forall j, k :: 0 <= j < k < |links| ==> links[j] != links[k])
  }

  /** The loop both commands share: `make` a slice of nil pointers, then one fresh link per role ID, in order. */
  method NewRoleLinks(roleIDs: seq<nat>) returns (arList: array<AdminRole?>)
    ensures fresh(arList) && arList.Length == |roleIDs|
    ensures AllSet(arList[..]) && forall k :: 0 <= k < arList.Length ==> fresh(arList[k])
    ensures RoleIDs(arList[..]) == roleIDs
    ensures Unsaved(arList[..])
  {
    arList := new AdminRole?[|roleIDs|];
    for i := 0 to |roleIDs|
      invariant forall k :: 0 <= k < i ==> arList[k] != null && fresh(arList[k])
      invariant forall k :: 0 <= k < i ==> arList[k].roleID == roleIDs[k]
      invariant forall k :: 0 <= k < i ==> arList[k].id == 0 && arList[k].adminID == 0
      invariant forall j, k :: 0 <= j < k < i ==> arList[j] != arList[k]
    {
      var link := new AdminRole(roleIDs[i]);
      arList[i] := link;
    }
  }

  /** `CreateAdminCmd`. */
  datatype CreateAdminCmd = CreateAdminCmd(account: string, password: string, name: string, mobile: string,
                                           active: bool, roleIDList: seq<nat>)

  /** `UpdateAdminCmd`. */
  datatype UpdateAdminCmd = UpdateAdminCmd(id: nat, account: string, name: string, mobile: string,
                                           active: bool, roleIDList: seq<nat>)

  /**
   * `CreateAdminCmd.toModel`: a new admin (ID 0) with the command's fields,
   * the generated `code` and the password's hash, and its role links. The
   * hashing error is ignored: the password then stays empty, and the
   * returned error is always nil.
   */
  method CreateToModel(cmd: CreateAdminCmd, code: string, hash: Result<string, string>)
    returns (model: Admin, arList: array<AdminRole?>, err: Option<string>)
    ensures fresh(model) && fresh(arList) && err == None
    ensures model.id == 0 && model.account == cmd.account && model.name == cmd.name
    ensures model.mobile == cmd.mobile && model.active == cmd.active && model.code == code
    ensures model.password == (if hash.Success? then hash.value else "")
    ensures arList.Length == |cmd.roleIDList| && AllSet(arList[..])
    ensures forall k :: 0 <= k < arList.Length ==> fresh(arList[k])
    ensures RoleIDs(arList[..]) == cmd.roleIDList && Unsaved(arList[..])
  {
    arList := NewRoleLinks(cmd.roleIDList);
    model := new Admin(0, cmd.account, cmd.name, cmd.mobile, code, cmd.active);
    var _ := model.SetPassword(hash);
    err := None;
  }

  /**
   * `UpdateAdminCmd.toModel`: the admin with the command's ID and fields,
   * an empty password and code (so an update leaves them alone), and its
   * role links; the returned error is always nil.
   */
  method UpdateToModel(cmd: UpdateAdminCmd) returns (model: Admin, arList: array<AdminRole?>, err: Option<string>)
    ensures fresh(model) && fresh(arList) && err == None
    ensures model.id == cmd.id && model.account == cmd.account && model.name == cmd.name
    ensures model.mobile == cmd.mobile && model.active == cmd.active
    ensures model.password == "" && model.code == ""
    ensures arList.Length == |cmd.roleIDList| && AllSet(arList[..])
    ensures forall k :: 0 <= k < arList.Length ==> fresh(arList[k])
    ensures RoleIDs(arList[..]) == cmd.roleIDList && Unsaved(arList[..])
  {
    arList := NewRoleLinks(cmd.roleIDList);
    model := new Admin(cmd.id, cmd.account, cmd.name, cmd.mobile, "", cmd.active);
    err := None;
  }
}

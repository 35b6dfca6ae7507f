/**
 * LoginUserDto: the descriptor of the logged-in user handed to controller
 * methods. Its fields start out null (None) and its role list empty;
 * roles are appended one at a time.
 */
module LoginUser {
  import opened Wrappers

  class LoginUserDto {
    var userEmail: Option<string>
    var userNickname: Option<string>
    var userId: Option<int>
    var roles: seq<string>

    constructor ()
      ensures userEmail == None && userNickname == None && userId == None
      ensures roles == []
    {
      userEmail, userNickname, userId := None, None, None;
      roles := [];
    }

    /** addRole: appends to the list; nothing else changes. */
    method AddRole(role: string)
      modifies this`roles
      ensures roles == old(roles) + [role]
      ensures userEmail == old(userEmail) && userNickname == old(userNickname) && userId == old(userId)
    {
      roles := roles + [role];
    }
  }

  /** The same role added twice is listed twice: the roles are a list, not a set. */
  method DuplicateRolesKept(role: string) returns (roles: seq<string>)
    ensures roles == [role, role]
  {
    var dto := new LoginUserDto();
    dto.AddRole(role);
    dto.AddRole(role);
    roles := dto.roles;
  }
}

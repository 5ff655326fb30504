/**
 * The REST permission classes: role checks on the requesting user and the
 * object-level ownership check.
 */
module Permissions {
  import opened Text
  import opened Models

  /**
   * The requesting user: an anonymous request carries no user row, so it has
   * no role; an authenticated one carries its id and role.
   */
  datatype Requester = Anonymous | Authenticated(id: UserId, role: Role)

  /**
   * An ownership column of the object being accessed: the model may not
   * declare it at all, or declare a nullable foreign key to a user.
   */
  datatype Owner = NoSuchField | Field(user: Option<UserId>)

  /** The object an object-level check looks at: its `teacher` and `user` columns. */
  datatype Obj = Obj(teacher: Owner, user: Owner)

  /** `IsAdmin.has_permission` */
  predicate IsAdmin(r: Requester)
  {
    r.Authenticated? && r.role == Admin
  }

  /** `IsTeacher.has_permission` */
  predicate IsTeacher(r: Requester)
  {
    r.Authenticated? && r.role == Teacher
  }

  /** `IsTeacherOrAdmin.has_permission` */
  predicate IsTeacherOrAdmin(r: Requester)
  {
    if !r.Authenticated? then false else r.role in {Admin, Teacher}
  }

  /** A role check grants nothing to an anonymous request, and the combined check is the union of the two. */
  lemma RoleChecks(r: Requester)
    ensures IsAdmin(r) <==> r.Authenticated? && r.role == Admin
    ensures IsTeacher(r) <==> r.Authenticated? && r.role == Teacher
    ensures IsTeacherOrAdmin(r) <==> IsAdmin(r) || IsTeacher(r)
    ensures r.Anonymous? ==> !IsAdmin(r) && !IsTeacher(r) && !IsTeacherOrAdmin(r)
    ensures !(IsAdmin(r) && IsTeacher(r))
  {
  }

  /** The outcome of an object-level check: a verdict, or the error raised reading `role` of an anonymous user. */
  datatype Verdict = Allow | Deny | NoRoleAttribute

  /**
   * `IsOwnerOrAdmin.has_object_permission`: an admin always passes; otherwise
   * the `teacher` column decides when the object has one, else the `user`
   * column, else access is denied.  The check reads the role without first
   * asking whether the user is authenticated.
   */
  function IsOwnerOrAdmin(r: Requester, obj: Obj): (v: Verdict)
    ensures r.Anonymous? <==> v == NoRoleAttribute
    ensures IsAdmin(r) ==> v == Allow
    ensures v == Allow && !IsAdmin(r) ==>
      (obj.teacher.Field? && obj.teacher.user == Some(r.id))
      || (obj.teacher.NoSuchField? && obj.user.Field? && obj.user.user == Some(r.id))
  {
    if r.Anonymous? then NoRoleAttribute
    else if r.role == Admin then Allow
    else if obj.teacher.Field? then (if obj.teacher.user == Some(r.id) then Allow else Deny)
    else if obj.user.Field? then (if obj.user.user == Some(r.id) then Allow else Deny)
    else Deny
  }

  /**
   * Ownership is decided by the first declared column only: a teacher column
   * naming someone else denies the object's `user` even when that is the
   * requester, and an unset teacher column denies every non-admin.
   */
  lemma TeacherColumnShadowsUser(r: Requester, obj: Obj)
    requires r.Authenticated? && r.role != Admin && obj.teacher.Field? && obj.teacher.user != Some(r.id)
    ensures IsOwnerOrAdmin(r, obj) == Deny
  {
  }

  /** A non-admin owner is let in; an object with neither column admits only admins. */
  lemma OwnerAdmitted(r: Requester, obj: Obj)
    requires r.Authenticated?
    ensures obj.teacher == Field(Some(r.id)) ==> IsOwnerOrAdmin(r, obj) == Allow
    ensures obj.teacher.NoSuchField? && obj.user == Field(Some(r.id)) ==> IsOwnerOrAdmin(r, obj) == Allow
    ensures obj.teacher.NoSuchField? && obj.user.NoSuchField? ==> (IsOwnerOrAdmin(r, obj) == Allow <==> r.role == Admin)
  {
  }
}

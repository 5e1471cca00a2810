/**
 * The service router (user_service/src/routers/service.py). No handler here is
 * gated by an admin check. `create_service` and `delete_service` catch every
 * exception, their own HTTPException included, and answer 500.
 */
module ServiceRouter {
  import opened Wrappers
  import opened Schema
  import opened Store
  import opened UserRepo
  import opened ServiceRepo

  datatype MessageReply = MessageReply(message: string)

  const InternalError := "Internal server error"
  const Assigned := "Service assigned successfully"
  const AlreadyAssigned := "User already has access to this service"

  /** get_all_services: every service, in table order. */
  method GetAllServices(db: Session) returns (out: Outcome<seq<Service>>)
    ensures out == Done(db.services)
  {
    var services := new ServiceRepository(db);
    var all := services.GetAllServices();
    out := Done(all);
  }

  /**
   * create_service: a new name creates and returns the service; a taken name makes
   * the commit fail, and the handler answers 500 rather than 400.
   */
  method CreateService(db: Session, name: string) returns (out: Outcome<Service>)
    requires db.Valid()
    modifies db`services, db`nextServiceId
    ensures db.Valid()
    ensures (exists s :: s in old(db.services) && s.name == name) ==>
      out == Raised(500, InternalError) && db.services == old(db.services) && db.nextServiceId == old(db.nextServiceId)
    ensures !(exists s :: s in old(db.services) && s.name == name) ==>
      out == Done(Service(old(db.nextServiceId), name)) && db.services == old(db.services) + [Service(old(db.nextServiceId), name)] &&
      db.nextServiceId == old(db.nextServiceId) + 1
  {
    var services := new ServiceRepository(db);
    var created := services.CreateService(name);
    out := if created.Success? then Done(created.value) else Raised(500, InternalError);
  }

  /**
   * delete_service: an existing id is deleted, with its grants, and the answer is the
   * success message; for an unknown id the 404 raised is turned into 500.
   */
  method DeleteService(db: Session, serviceId: int) returns (out: Outcome<MessageReply>)
    requires db.Valid()
    modifies db`services, db`userServices
    ensures db.Valid()
    ensures (exists s :: s in old(db.services) && s.id == serviceId) ==>
      out == Done(MessageReply("Service deleted successfully")) &&
      (forall s :: s in db.services <==> s in old(db.services) && s.id != serviceId) &&
      (forall g :: g in db.userServices <==> g in old(db.userServices) && g.serviceId != serviceId)
    ensures !(exists s :: s in old(db.services) && s.id == serviceId) ==>
      out == Raised(500, InternalError) && db.services == old(db.services) && db.userServices == old(db.userServices)
  {
    var services := new ServiceRepository(db);
    var deleted := services.DeleteService(serviceId);
    if !deleted {
      // HTTPException(404, "Service not found"), caught below
      return Raised(500, InternalError);
    }
    out := Done(MessageReply("Service deleted successfully"));
  }

  /**
   * assign_service_to_user, as written: 404 "User not found", then 404 "Service not
   * found"; otherwise the grant is made unless it exists already. The repository
   * answers True or False and the handler asks only whether that answer `is not
   * None`, so it always says the service was assigned, a repeated grant included.
   */
  method AssignServiceToUser(db: Session, userId: int, serviceId: int) returns (out: Outcome<MessageReply>)
    requires db.Valid()
    modifies db`userServices, db`nextUserServiceId
    ensures db.Valid()
    ensures !(exists u :: u in db.users && u.id == userId) ==>
      out == Raised(404, "User not found") && db.userServices == old(db.userServices)
    ensures (exists u :: u in db.users && u.id == userId) && !(exists s :: s in db.services && s.id == serviceId) ==>
      out == Raised(404, "Service not found") && db.userServices == old(db.userServices)
    ensures (exists u :: u in db.users && u.id == userId) && (exists s :: s in db.services && s.id == serviceId) ==>
      out == Done(MessageReply(Assigned)) &&
      exists g :: g in db.userServices && g.userId == userId && g.serviceId == serviceId
    ensures (exists g :: g in old(db.userServices) && g.userId == userId && g.serviceId == serviceId) ==>
      db.userServices == old(db.userServices)
    ensures ((exists u :: u in db.users && u.id == userId) && (exists s :: s in db.services && s.id == serviceId) &&
             !(exists g :: g in old(db.userServices) && g.userId == userId && g.serviceId == serviceId)) ==>
      db.userServices == old(db.userServices) + [UserService(old(db.nextUserServiceId), userId, serviceId)] &&
      db.nextUserServiceId == old(db.nextUserServiceId) + 1
    ensures db.userServices == old(db.userServices) ==> db.nextUserServiceId == old(db.nextUserServiceId)
  {
    var users := new UserRepository(db);
    var services := new ServiceRepository(db);
    var user := users.GetUserById(userId);
    if user.None? {
      return Raised(404, "User not found");
    }
    var service := services.GetServiceById(serviceId);
    if service.None? {
      return Raised(404, "Service not found");
    }
    var added := services.AssignServiceToUser(userId, serviceId);
    // `assigned_service is not None` holds for True and for False alike
    out := Done(MessageReply(Assigned));
  }

  /**
   * assign_service_to_user as evidently intended: the same checks and the same grant,
   * but a repeated grant is reported as such.
   */
  method AssignServiceToUserReportingRepeat(db: Session, userId: int, serviceId: int) returns (out: Outcome<MessageReply>)
    requires db.Valid()
    modifies db`userServices, db`nextUserServiceId
    ensures db.Valid()
    ensures !(exists u :: u in db.users && u.id == userId) ==>
      out == Raised(404, "User not found") && db.userServices == old(db.userServices)
    ensures (exists u :: u in db.users && u.id == userId) && !(exists s :: s in db.services && s.id == serviceId) ==>
      out == Raised(404, "Service not found") && db.userServices == old(db.userServices)
    ensures (exists u :: u in db.users && u.id == userId) && (exists s :: s in db.services && s.id == serviceId) ==>
      (out == Done(MessageReply(AlreadyAssigned)) <==>
         exists g :: g in old(db.userServices) && g.userId == userId && g.serviceId == serviceId) &&
      (out == Done(MessageReply(Assigned)) <==>
         !exists g :: g in old(db.userServices) && g.userId == userId && g.serviceId == serviceId)
    ensures (exists g :: g in old(db.userServices) && g.userId == userId && g.serviceId == serviceId) ==>
      db.userServices == old(db.userServices)
    ensures ((exists u :: u in db.users && u.id == userId) && (exists s :: s in db.services && s.id == serviceId) &&
             !(exists g :: g in old(db.userServices) && g.userId == userId && g.serviceId == serviceId)) ==>
      db.userServices == old(db.userServices) + [UserService(old(db.nextUserServiceId), userId, serviceId)] &&
      db.nextUserServiceId == old(db.nextUserServiceId) + 1
    ensures db.userServices == old(db.userServices) ==> db.nextUserServiceId == old(db.nextUserServiceId)
  {
    var users := new UserRepository(db);
    var services := new ServiceRepository(db);
    var user := users.GetUserById(userId);
    if user.None? {
      return Raised(404, "User not found");
    }
    var service := services.GetServiceById(serviceId);
    if service.None? {
      return Raised(404, "Service not found");
    }
    var added := services.AssignServiceToUser(userId, serviceId);
    out := if added then Done(MessageReply(Assigned)) else Done(MessageReply(AlreadyAssigned));
  }

  /**
   * The same grant requested twice: as written both answers say "assigned"; the
   * corrected handler says so the second time, and the grants are the same either way.
   */
  method AssignTwice(db: Session, userId: int, serviceId: int)
    returns (first: Outcome<MessageReply>, second: Outcome<MessageReply>, corrected: Outcome<MessageReply>)
    requires db.Valid()
    requires exists u :: u in db.users && u.id == userId
    requires exists s :: s in db.services && s.id == serviceId
    modifies db`userServices, db`nextUserServiceId
    ensures db.Valid()
    ensures first == second == Done(MessageReply(Assigned))
    ensures corrected == Done(MessageReply(AlreadyAssigned))
  {
    first := AssignServiceToUser(db, userId, serviceId);
    second := AssignServiceToUser(db, userId, serviceId);
    corrected := AssignServiceToUserReportingRepeat(db, userId, serviceId);
  }
}

/** `ServiceRepository` (user_service/src/core/repository/service_repository.py). */
module ServiceRepo {
  import opened Wrappers
  import opened Seqs
  import opened Schema
  import opened Store

  class ServiceRepository {
    const db: Session

    constructor (db: Session)
      ensures this.db == db
    {
      this.db := db;
    }

    /**
     * create_service: a new service with the next id. The repository does not look
     * for the name; only the UNIQUE column makes the commit of a taken name fail.
     */
    method CreateService(name: string) returns (r: Result<Service, Fault>)
      requires db.Valid()
      modifies db`services, db`nextServiceId
      ensures db.Valid()
      ensures r.Failure? <==> exists s :: s in old(db.services) && s.name == name
      ensures r.Failure? ==> r.error == IntegrityError && db.services == old(db.services) && db.nextServiceId == old(db.nextServiceId)
      ensures r.Success? ==> r.value == Service(old(db.nextServiceId), name) && r.value !in old(db.services)
      ensures r.Success? ==> db.services == old(db.services) + [r.value] && db.nextServiceId == old(db.nextServiceId) + 1
    {
      r := db.AddService(name);
    }

    /**
     * delete_service: True, that service removed and its grants with it, when the id
     * exists; False and no change otherwise.
     */
    method DeleteService(serviceId: int) returns (deleted: bool)
      requires db.Valid()
      modifies db`services, db`userServices
      ensures db.Valid()
      ensures deleted <==> exists s :: s in old(db.services) && s.id == serviceId
      ensures forall s :: s in db.services <==> s in old(db.services) && s.id != serviceId
      ensures deleted ==> forall g :: g in db.userServices <==> g in old(db.userServices) && g.serviceId != serviceId
      ensures !deleted ==> db.services == old(db.services) && db.userServices == old(db.userServices)
    {
      var service := db.ServiceById(serviceId);
      if service.Some? {
        db.DeleteServiceRow(serviceId);
        return true;
      }
      FilterKeepsAll(db.services, ServiceIdIsNot(serviceId));
      return false;
    }

    /** get_all_services: every stored service, in table order. */
    method GetAllServices() returns (all: seq<Service>)
      ensures all == db.services
    {
      all := db.services;
    }

    /**
     * assign_service_to_user: False and no change when the pair is already granted;
     * otherwise the pair is added and the answer is True. Either way the pair is
     * granted afterwards, exactly once.
     */
    method AssignServiceToUser(userId: int, serviceId: int) returns (added: bool)
      requires db.Valid()
      modifies db`userServices, db`nextUserServiceId
      ensures db.Valid()
      ensures added <==> forall g :: g in old(db.userServices) ==> !(g.userId == userId && g.serviceId == serviceId)
      ensures !added ==> db.userServices == old(db.userServices) && db.nextUserServiceId == old(db.nextUserServiceId)
      ensures added ==> (db.userServices == old(db.userServices) + [UserService(old(db.nextUserServiceId), userId, serviceId)] &&
                         db.nextUserServiceId == old(db.nextUserServiceId) + 1)
      ensures exists g :: g in db.userServices && g.userId == userId && g.serviceId == serviceId
    {
      var existing := db.UserServiceRow(userId, serviceId);
      if existing.Some? {
        return false;
      }
      var g := db.AddUserService(userId, serviceId);
      assert g in db.userServices;
      return true;
    }

    /** get_service_by_id: the service with that id, or None. */
    method GetServiceById(serviceId: int) returns (r: Option<Service>)
      requires db.Valid()
      ensures r.Some? ==> r.value in db.services && r.value.id == serviceId
      ensures forall s :: s in db.services && s.id == serviceId ==> r == Some(s)
    {
      r := db.ServiceById(serviceId);
    }

    /** get_service_by_name: the service with that name, or None. */
    method GetServiceByName(name: string) returns (r: Option<Service>)
      requires db.Valid()
      ensures r.Some? ==> r.value in db.services && r.value.name == name
      ensures forall s :: s in db.services && s.name == name ==> r == Some(s)
    {
      r := db.ServiceByName(name);
    }
  }
}

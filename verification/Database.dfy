/** The mutable directory tables that the service methods update inside a transaction. */
module Database {
  import opened Prelude
  import opened Tables

  class Database {
    var buildings: seq<Building>
    var units: seq<Unit>
    var users: seq<User>
    var roles: map<string, Id>
    var userRoles: set<UserRole>
    var assignments: set<Assignment>
    var occupancies: seq<Occupancy>
    var amenities: seq<Amenity>
    var unitAmenities: set<UnitAmenity>

    /** The current contents of all tables. */
    function Contents(): Dir
      reads this
    {
      Dir(buildings, units, users, roles, userRoles, assignments, occupancies, amenities, unitAmenities)
    }

    constructor (roles: map<string, Id>)
      ensures Contents() == Dir([], [], [], roles, {}, {}, [], [], {})
      ensures Valid(Contents())
    {
      this.roles := roles;
      buildings, units, users, occupancies, amenities := [], [], [], [], [];
      userRoles, assignments, unitAmenities := {}, {}, {};
    }

    /** Transaction rollback: bring back the contents saved when the transaction began. */
    method Rollback(saved: Dir)
      modifies this
      ensures Contents() == saved
    {
      buildings, units, users, roles := saved.buildings, saved.units, saved.users, saved.roles;
      userRoles, assignments, occupancies := saved.userRoles, saved.assignments, saved.occupancies;
      amenities, unitAmenities := saved.amenities, saved.unitAmenities;
    }
  }
}

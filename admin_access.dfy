/** The admin-management routes: who may call them (the management secret in
    a header, or else a verifying session cookie), and the creation of admin
    users and restaurants after their existence and uniqueness checks. */
module AdminAccess {

  import opened Base
  import opened Seqs
  import opened Store
  import opened Api
  import Auth

  const Unauthorized := "Unauthorized"
  const InvalidInput := "Invalid input"
  const Unexpected := "Unexpected error"
  const RestaurantNotFound := "Restaurant not found"
  const UsernameTaken := "Username already exists"
  const AdminInsertFailed := "Failed to create admin user"
  const AdminCreated := "Admin user created"
  const RestaurantTaken := "Restaurant already exists"
  const RestaurantInsertFailed := "Failed to create restaurant"
  const RestaurantCreated := "Restaurant created"

  /** What the authorisation check reads from a request: the `x-admin-secret`
      header, the `admin_auth` cookie, and whether reading or verifying the
      cookie throws. */
  datatype Caller = Caller(header: Option<string>, cookie: Option<string>, cookieFault: bool)

  /** `isAuthorized(req)`, the same in both routes. */
  predicate IsAuthorized(env: Env, verify: Auth.Verifier, caller: Caller) {
    var secret := EnvGet(env, "ADMIN_MANAGEMENT_SECRET");
    if Truthy(secret) && Truthy(caller.header) && caller.header.value == secret.value then true
    else if caller.cookieFault || !Truthy(caller.cookie) then false
    else Auth.Verified(env, verify, caller.cookie.value).Some?
  }

  /** The secret header is looked at first and suffices on its own; without
      it, a present cookie that verifies is needed, and a throw denies. */
  lemma AuthorizationOrder(env: Env, verify: Auth.Verifier, caller: Caller)
    ensures Truthy(EnvGet(env, "ADMIN_MANAGEMENT_SECRET")) && caller.header == EnvGet(env, "ADMIN_MANAGEMENT_SECRET")
      ==> IsAuthorized(env, verify, caller)
    ensures !(Truthy(EnvGet(env, "ADMIN_MANAGEMENT_SECRET")) && caller.header == EnvGet(env, "ADMIN_MANAGEMENT_SECRET"))
      ==> (IsAuthorized(env, verify, caller) <==>
           !caller.cookieFault && Truthy(caller.cookie) && Auth.Verified(env, verify, caller.cookie.value).Some?)
  {
  }

  /** An unset or empty secret never lets a header in, whatever it holds. */
  lemma EmptySecretNeedsCookie(env: Env, verify: Auth.Verifier, caller: Caller)
    requires !Truthy(EnvGet(env, "ADMIN_MANAGEMENT_SECRET"))
    ensures IsAuthorized(env, verify, caller) ==> Truthy(caller.cookie) && !caller.cookieFault
  {
  }

  /** What the routes need from outside: the environment, the token
      verifier, whether creating the client throws, whether the `.single()`
      lookup of a restaurant by slug or of an admin by username returns an
      error, whether `hashPassword` throws (only the admin-users route
      hashes), and whether the insert fails. The routes read only `data` from
      a lookup, so a failed lookup reads as "no row". */
  datatype Services = Services(env: Env, verify: Auth.Verifier, clientFault: bool,
    restaurantLookupFault: bool, usernameLookupFault: bool, hashFault: bool, insertFails: bool)

  /** The admin-users body as the schema sees it; a body that is not JSON
      reads as `{}`, every field absent. */
  datatype AdminUserBody = AdminUserBody(username: Field<string>, password: Field<string>, restaurantSlug: Field<string>)

  /** The schema: `username` at least 3 characters, `password` at least 8,
      `restaurant_slug` non-empty. */
  predicate AdminUserBodyOk(b: AdminUserBody) {
    b.username.Given? && |b.username.value| >= 3
    && b.password.Given? && |b.password.value| >= 8
    && b.restaurantSlug.Given? && |b.restaurantSlug.value| >= 1
  }

  /** The 201 reply's `user`. */
  datatype CreatedAdmin = CreatedAdmin(username: string, restaurantSlug: string)

  /** `POST /api/admin/admin-users` on a store and a password hasher. */
  function CreateAdminSpec(db: Db, sv: Services, caller: Caller, body: AdminUserBody, hash: string -> string)
    : (Reply<CreatedAdmin>, Db)
  {
    if !IsAuthorized(sv.env, sv.verify, caller) then (Fail(401, Unauthorized), db)
    else if !AdminUserBodyOk(body) then (Fail(400, InvalidInput), db)
    else if sv.clientFault then (Fail(500, Unexpected), db)
    else
      var username, password, slug := body.username.value, body.password.value, body.restaurantSlug.value;
      if sv.restaurantLookupFault || |RestaurantsWithSlug(db, slug)| != 1 then (Fail(404, RestaurantNotFound), db)
      else if !sv.usernameLookupFault && |AdminsNamed(db, username)| == 1 then (Fail(409, UsernameTaken), db)
      else if sv.hashFault then (Fail(500, Unexpected), db)
      else if sv.insertFails then (Fail(500, AdminInsertFailed), db)
      else
        (Reply(201, Some(AdminCreated), Some(CreatedAdmin(username, slug)), None),
         db.(admins := db.admins + [AdminUser(username, hash(password), Some(slug))]))
  }

  method CreateAdmin(db: Db, sv: Services, caller: Caller, body: AdminUserBody, hash: string -> string)
    returns (reply: Reply<CreatedAdmin>, db': Db)
    ensures (reply, db') == CreateAdminSpec(db, sv, caller, body, hash)
  {
    if !IsAuthorized(sv.env, sv.verify, caller) {
      return Fail(401, Unauthorized), db;
    }
    if !AdminUserBodyOk(body) {
      return Fail(400, InvalidInput), db;
    }
    if sv.clientFault {
      return Fail(500, Unexpected), db;
    }
    var username, password, slug := body.username.value, body.password.value, body.restaurantSlug.value;
    var rest := RestaurantsWithSlug(db, slug);
    if sv.restaurantLookupFault || |rest| != 1 {
      return Fail(404, RestaurantNotFound), db;
    }
    var existing := AdminsNamed(db, username);
    if !sv.usernameLookupFault && |existing| == 1 {
      return Fail(409, UsernameTaken), db;
    }
    if sv.hashFault {
      return Fail(500, Unexpected), db;
    }
    var passwordHash := hash(password);
    if sv.insertFails {
      return Fail(500, AdminInsertFailed), db;
    }
    db' := db.(admins := db.admins + [AdminUser(username, passwordHash, Some(slug))]);
    reply := Reply(201, Some(AdminCreated), Some(CreatedAdmin(username, slug)), None);
  }

  /** An unauthorised caller gets 401 before the body is read: the reply is
      the same for every body and the store is untouched. */
  lemma AdminUnauthorizedFirst(db: Db, sv: Services, caller: Caller, body: AdminUserBody, other: AdminUserBody,
                               hash: string -> string)
    requires !IsAuthorized(sv.env, sv.verify, caller)
    ensures CreateAdminSpec(db, sv, caller, body, hash) == (Fail(401, Unauthorized), db)
    ensures CreateAdminSpec(db, sv, caller, body, hash) == CreateAdminSpec(db, sv, caller, other, hash)
  {
  }

  /** Bodies the schema refuses give 400 and change nothing. */
  lemma AdminBodyChecked(db: Db, sv: Services, caller: Caller, body: AdminUserBody, hash: string -> string)
    requires IsAuthorized(sv.env, sv.verify, caller)
    ensures !AdminUserBodyOk(body) <==> CreateAdminSpec(db, sv, caller, body, hash).0.status == 400
    ensures !AdminUserBodyOk(body) ==> CreateAdminSpec(db, sv, caller, body, hash).1 == db
  {
  }

  /** Admin usernames are distinct. */
  predicate DistinctUsernames(admins: seq<AdminUser>) {
    forall i, j :: 0 <= i < j < |admins| ==> admins[i].username != admins[j].username
  }

  /** Restaurant slugs are distinct. */
  predicate DistinctSlugs(restaurants: seq<Restaurant>) {
    forall i, j :: 0 <= i < j < |restaurants| ==> restaurants[i].slug != restaurants[j].slug
  }

  lemma {:induction false} DistinctNamedAtMostOne(admins: seq<AdminUser>, username: string)
    requires DistinctUsernames(admins)
    ensures |Filter(admins, (a: AdminUser) => a.username == username)| <= 1
    ensures |Filter(admins, (a: AdminUser) => a.username == username)| == 0 ==>
      forall i :: 0 <= i < |admins| ==> admins[i].username != username
  {
    var p := (a: AdminUser) => a.username == username;
    if admins != [] {
      var init, last := admins[..|admins| - 1], admins[|admins| - 1];
      DistinctNamedAtMostOne(init, username);
      assert Filter(admins, p) == Filter(init, p) + (if p(last) then [last] else []);
      if p(last) {
        forall i | 0 <= i < |init| ensures init[i].username != username {
          assert admins[i] == init[i];
        }
        NoneNamed(init, username);
      }
    }
  }

  lemma {:induction false} NoneNamed(admins: seq<AdminUser>, username: string)
    requires forall i :: 0 <= i < |admins| ==> admins[i].username != username
    ensures Filter(admins, (a: AdminUser) => a.username == username) == []
  {
    if admins != [] { NoneNamed(admins[..|admins| - 1], username); }
  }

  /** With usernames distinct and the uniqueness lookup answering, the
      check (`.single()` finds the row) refuses every name already taken, so
      creation keeps them distinct; and the new admin always belongs to a
      restaurant that exists. */
  lemma CreateAdminKeepsUsernamesDistinct(db: Db, sv: Services, caller: Caller, body: AdminUserBody,
                                          hash: string -> string)
    requires DistinctUsernames(db.admins)
    ensures !sv.usernameLookupFault ==> DistinctUsernames(CreateAdminSpec(db, sv, caller, body, hash).1.admins)
    ensures CreateAdminSpec(db, sv, caller, body, hash).0.status == 201 ==>
      exists i :: 0 <= i < |db.restaurants| && db.restaurants[i].slug == body.restaurantSlug.value
  {
    var (reply, db') := CreateAdminSpec(db, sv, caller, body, hash);
    if reply.status == 201 && !sv.usernameLookupFault {
      var username, slug := body.username.value, body.restaurantSlug.value;
      var added := AdminUser(username, hash(body.password.value), Some(slug));
      assert |AdminsNamed(db, username)| != 1 && |RestaurantsWithSlug(db, slug)| == 1;
      assert db'.admins == db.admins + [added];
      DistinctNamedAtMostOne(db.admins, username);
      AppendFreshUsername(db.admins, added);
      SlugFound(db, slug);
    } else if reply.status == 201 {
      SlugFound(db, body.restaurantSlug.value);
    }
  }

  /** A failed uniqueness lookup reads as "no such admin": a taken name gets
      past the 409 and is stored a second time. */
  lemma UsernameLookupFaultDuplicates(db: Db, sv: Services, caller: Caller, body: AdminUserBody,
                                      hash: string -> string)
    requires IsAuthorized(sv.env, sv.verify, caller) && AdminUserBodyOk(body)
    requires !sv.clientFault && !sv.restaurantLookupFault && !sv.hashFault && !sv.insertFails
    requires |RestaurantsWithSlug(db, body.restaurantSlug.value)| == 1
    requires sv.usernameLookupFault
    requires exists i :: 0 <= i < |db.admins| && db.admins[i].username == body.username.value
    ensures CreateAdminSpec(db, sv, caller, body, hash).0.status == 201
    ensures !DistinctUsernames(CreateAdminSpec(db, sv, caller, body, hash).1.admins)
  {
    var i :| 0 <= i < |db.admins| && db.admins[i].username == body.username.value;
    var admins' := CreateAdminSpec(db, sv, caller, body, hash).1.admins;
    assert admins'[i] == db.admins[i] && admins'[|db.admins|].username == body.username.value;
  }

  /** An admin whose name no stored admin has keeps usernames distinct. */
  lemma AppendFreshUsername(admins: seq<AdminUser>, added: AdminUser)
    requires DistinctUsernames(admins)
    requires forall i :: 0 <= i < |admins| ==> admins[i].username != added.username
    ensures DistinctUsernames(admins + [added])
  {
    var all := admins + [added];
    forall i, j | 0 <= i < j < |all| ensures all[i].username != all[j].username {
      assert all[i] == admins[i];
    }
  }

  /** A slug the lookup finds once belongs to a stored restaurant. */
  lemma SlugFound(db: Db, slug: string)
    requires |RestaurantsWithSlug(db, slug)| == 1
    ensures exists i :: 0 <= i < |db.restaurants| && db.restaurants[i].slug == slug
  {
    var found := RestaurantsWithSlug(db, slug);
    FilterMembers(db.restaurants, (r: Restaurant) => r.slug == slug, found[0]);
    var k :| 0 <= k < |db.restaurants| && db.restaurants[k] == found[0];
    assert db.restaurants[k].slug == slug;
  }

  /** A successful creation stores the hash of the password, never the
      password itself unless the hasher returns it, and echoes only the
      username and the restaurant. */
  lemma CreatedAdminEcho(db: Db, sv: Services, caller: Caller, body: AdminUserBody, hash: string -> string)
    requires CreateAdminSpec(db, sv, caller, body, hash).0.status == 201
    ensures CreateAdminSpec(db, sv, caller, body, hash).0.data
      == Some(CreatedAdmin(body.username.value, body.restaurantSlug.value))
    ensures CreateAdminSpec(db, sv, caller, body, hash).1.admins
      == db.admins + [AdminUser(body.username.value, hash(body.password.value), Some(body.restaurantSlug.value))]
    ensures CreateAdminSpec(db, sv, caller, body, hash).1.rows == db.rows
    ensures CreateAdminSpec(db, sv, caller, body, hash).1.restaurants == db.restaurants
  {
  }

  /** An unknown restaurant, or a failed restaurant lookup, is a 404, and a
      taken username a 409 when the uniqueness lookup answers, all before
      anything is hashed or stored. */
  lemma AdminRefusals(db: Db, sv: Services, caller: Caller, body: AdminUserBody, hash: string -> string)
    requires IsAuthorized(sv.env, sv.verify, caller) && AdminUserBodyOk(body) && !sv.clientFault
    ensures (forall i :: 0 <= i < |db.restaurants| ==> db.restaurants[i].slug != body.restaurantSlug.value)
      ==> CreateAdminSpec(db, sv, caller, body, hash) == (Fail(404, RestaurantNotFound), db)
    ensures sv.restaurantLookupFault ==> CreateAdminSpec(db, sv, caller, body, hash) == (Fail(404, RestaurantNotFound), db)
    ensures !sv.restaurantLookupFault && !sv.usernameLookupFault
      && |RestaurantsWithSlug(db, body.restaurantSlug.value)| == 1 && |AdminsNamed(db, body.username.value)| == 1
      ==> CreateAdminSpec(db, sv, caller, body, hash) == (Fail(409, UsernameTaken), db)
  {
    var slug := body.restaurantSlug.value;
    if forall i :: 0 <= i < |db.restaurants| ==> db.restaurants[i].slug != slug {
      NoRestaurant(db.restaurants, slug);
    }
  }

  /** A `hashPassword` that throws reaches the catch: a 500 "Unexpected
      error" after both lookups have passed, with nothing stored. */
  lemma AdminHashFault(db: Db, sv: Services, caller: Caller, body: AdminUserBody, hash: string -> string)
    requires IsAuthorized(sv.env, sv.verify, caller) && AdminUserBodyOk(body) && !sv.clientFault
    requires !sv.restaurantLookupFault && |RestaurantsWithSlug(db, body.restaurantSlug.value)| == 1
    requires sv.usernameLookupFault || |AdminsNamed(db, body.username.value)| != 1
    ensures sv.hashFault <==> CreateAdminSpec(db, sv, caller, body, hash) == (Fail(500, Unexpected), db)
  {
  }

  lemma {:induction false} NoRestaurant(restaurants: seq<Restaurant>, slug: string)
    requires forall i :: 0 <= i < |restaurants| ==> restaurants[i].slug != slug
    ensures Filter(restaurants, (r: Restaurant) => r.slug == slug) == []
  {
    if restaurants != [] { NoRestaurant(restaurants[..|restaurants| - 1], slug); }
  }

  /** The restaurants body as the schema sees it. */
  datatype RestaurantBody = RestaurantBody(slug: Field<string>, name: Field<string>)

  predicate RestaurantBodyOk(b: RestaurantBody) {
    b.slug.Given? && |b.slug.value| >= 1 && b.name.Given? && |b.name.value| >= 1
  }

  /** `POST /api/admin/restaurants`. */
  function CreateRestaurantSpec(db: Db, sv: Services, caller: Caller, body: RestaurantBody): (Reply<Restaurant>, Db) {
    if !IsAuthorized(sv.env, sv.verify, caller) then (Fail(401, Unauthorized), db)
    else if !RestaurantBodyOk(body) then (Fail(400, InvalidInput), db)
    else if sv.clientFault then (Fail(500, Unexpected), db)
    else
      var slug, name := body.slug.value, body.name.value;
      if !sv.restaurantLookupFault && |RestaurantsWithSlug(db, slug)| == 1 then (Fail(409, RestaurantTaken), db)
      else if sv.insertFails then (Fail(500, RestaurantInsertFailed), db)
      else
        (Reply(201, Some(RestaurantCreated), Some(Restaurant(slug, name)), None),
         db.(restaurants := db.restaurants + [Restaurant(slug, name)]))
  }

  method CreateRestaurant(db: Db, sv: Services, caller: Caller, body: RestaurantBody)
    returns (reply: Reply<Restaurant>, db': Db)
    ensures (reply, db') == CreateRestaurantSpec(db, sv, caller, body)
  {
    if !IsAuthorized(sv.env, sv.verify, caller) {
      return Fail(401, Unauthorized), db;
    }
    if !RestaurantBodyOk(body) {
      return Fail(400, InvalidInput), db;
    }
    if sv.clientFault {
      return Fail(500, Unexpected), db;
    }
    var slug, name := body.slug.value, body.name.value;
    var existing := RestaurantsWithSlug(db, slug);
    if !sv.restaurantLookupFault && |existing| == 1 {
      return Fail(409, RestaurantTaken), db;
    }
    if sv.insertFails {
      return Fail(500, RestaurantInsertFailed), db;
    }
    db' := db.(restaurants := db.restaurants + [Restaurant(slug, name)]);
    reply := Reply(201, Some(RestaurantCreated), Some(Restaurant(slug, name)), None);
  }

  /** An unauthorised caller gets 401 before the body is read; an empty slug
      or name gives 400; neither touches the store. */
  lemma RestaurantGuards(db: Db, sv: Services, caller: Caller, body: RestaurantBody, other: RestaurantBody)
    ensures !IsAuthorized(sv.env, sv.verify, caller) ==>
      CreateRestaurantSpec(db, sv, caller, body) == (Fail(401, Unauthorized), db)
      && CreateRestaurantSpec(db, sv, caller, other) == CreateRestaurantSpec(db, sv, caller, body)
    ensures IsAuthorized(sv.env, sv.verify, caller) && body.slug == Given("") ==>
      CreateRestaurantSpec(db, sv, caller, body) == (Fail(400, InvalidInput), db)
    ensures IsAuthorized(sv.env, sv.verify, caller) && body.name == Given("") ==>
      CreateRestaurantSpec(db, sv, caller, body) == (Fail(400, InvalidInput), db)
  {
  }

  lemma {:induction false} DistinctSlugAtMostOne(restaurants: seq<Restaurant>, slug: string)
    requires DistinctSlugs(restaurants)
    ensures |Filter(restaurants, (r: Restaurant) => r.slug == slug)| <= 1
    ensures |Filter(restaurants, (r: Restaurant) => r.slug == slug)| == 0 ==>
      forall i :: 0 <= i < |restaurants| ==> restaurants[i].slug != slug
  {
    var p := (r: Restaurant) => r.slug == slug;
    if restaurants != [] {
      var init, last := restaurants[..|restaurants| - 1], restaurants[|restaurants| - 1];
      DistinctSlugAtMostOne(init, slug);
      assert Filter(restaurants, p) == Filter(init, p) + (if p(last) then [last] else []);
      if p(last) {
        forall i | 0 <= i < |init| ensures init[i].slug != slug {
          assert restaurants[i] == init[i];
        }
        NoRestaurant(init, slug);
      }
    }
  }

  /** With slugs distinct and the lookup answering, an existing slug is a
      409 with no insert and slugs stay distinct; a 201 always stores and
      echoes exactly the new restaurant. */
  lemma CreateRestaurantKeepsSlugsDistinct(db: Db, sv: Services, caller: Caller, body: RestaurantBody)
    requires DistinctSlugs(db.restaurants)
    ensures !sv.restaurantLookupFault ==> DistinctSlugs(CreateRestaurantSpec(db, sv, caller, body).1.restaurants)
    ensures CreateRestaurantSpec(db, sv, caller, body).0.status == 201 ==>
      CreateRestaurantSpec(db, sv, caller, body).0.data == Some(Restaurant(body.slug.value, body.name.value))
      && CreateRestaurantSpec(db, sv, caller, body).1.restaurants == db.restaurants + [Restaurant(body.slug.value, body.name.value)]
    ensures IsAuthorized(sv.env, sv.verify, caller) && RestaurantBodyOk(body) && !sv.clientFault
      && !sv.restaurantLookupFault && (exists i :: 0 <= i < |db.restaurants| && db.restaurants[i].slug == body.slug.value)
      ==> CreateRestaurantSpec(db, sv, caller, body) == (Fail(409, RestaurantTaken), db)
  {
    if IsAuthorized(sv.env, sv.verify, caller) && RestaurantBodyOk(body) && !sv.clientFault && !sv.restaurantLookupFault {
      var slug, name := body.slug.value, body.name.value;
      DistinctSlugAtMostOne(db.restaurants, slug);
      if |RestaurantsWithSlug(db, slug)| != 1 && !sv.insertFails {
        AppendFreshSlug(db.restaurants, Restaurant(slug, name));
      }
    }
  }

  /** A failed slug lookup reads as "no such restaurant": an existing slug
      gets past the 409 and is stored a second time. */
  lemma RestaurantLookupFaultDuplicates(db: Db, sv: Services, caller: Caller, body: RestaurantBody)
    requires IsAuthorized(sv.env, sv.verify, caller) && RestaurantBodyOk(body)
    requires !sv.clientFault && !sv.insertFails && sv.restaurantLookupFault
    requires exists i :: 0 <= i < |db.restaurants| && db.restaurants[i].slug == body.slug.value
    ensures CreateRestaurantSpec(db, sv, caller, body).0.status == 201
    ensures !DistinctSlugs(CreateRestaurantSpec(db, sv, caller, body).1.restaurants)
  {
    var i :| 0 <= i < |db.restaurants| && db.restaurants[i].slug == body.slug.value;
    var rs := CreateRestaurantSpec(db, sv, caller, body).1.restaurants;
    assert rs[i] == db.restaurants[i] && rs[|db.restaurants|].slug == body.slug.value;
  }

  /** A restaurant whose slug no stored restaurant has keeps slugs distinct. */
  lemma AppendFreshSlug(restaurants: seq<Restaurant>, added: Restaurant)
    requires DistinctSlugs(restaurants)
    requires forall i :: 0 <= i < |restaurants| ==> restaurants[i].slug != added.slug
    ensures DistinctSlugs(restaurants + [added])
  {
    var all := restaurants + [added];
    forall i, j | 0 <= i < j < |all| ensures all[i].slug != all[j].slug {
      assert all[i] == restaurants[i];
    }
  }
}

// The engine side of src/wgleng/core/PhysicsWorld.cpp and .h: the caches of
// collision shapes held by weak pointers, the gravity and contact-response
// flag toggles, rigid-body creation, and the post-processing of a ray test
// (dropping hits without user data, filtering by a predicate, sorting by
// distance).  Bullet itself is not modelled: which shapes still have owners,
// the hits a ray test reports and the values Bullet computes are inputs.

module PhysicsWorld {
  import opened Common
  import opened Glm
  import opened Components

  /** `entt::entity`. */
  type EntityId = nat

  /** A `btCollisionShape` object, known by identity. */
  type ShapeId = nat

  /** What a shape is: the box, sphere or capsule a cache built it as. */
  datatype Shape = Box(halfExtents: Vec3) | Sphere(radius: real) | Capsule(radius: real, height: real)

  /** `BT_DISABLE_WORLD_GRAVITY` of `btRigidBodyFlags`. */
  const DisableWorldGravity: bv32 := 1

  /** `CF_NO_CONTACT_RESPONSE` of `btCollisionObject::CollisionFlags`. */
  const NoContactResponse: bv32 := 4

  /** The world gravity set by the constructor. */
  const WorldGravity := Vec3(0.0, -30.0, 0.0)

  /** The rolling friction every created body gets. */
  const RollingFriction: real := 0.05

  // ---------------------------------------------------------------------
  // Flag bits

  /** Clearing a flag that was set and setting a flag that was clear are undone by the opposite toggle. */
  lemma FlagRoundTrip(flags: bv32, flag: bv32)
    ensures flags & flag == flag ==> SetBits(ClearBits(flags, flag), flag) == flags
    ensures flags & flag == 0 ==> ClearBits(SetBits(flags, flag), flag) == flags
  {
  }

  // ---------------------------------------------------------------------
  // Shape caches

  /** The entries whose shape still has an owner: what `clearExpiredObjects` keeps. */
  function LiveEntries<K(!new)>(m: map<K, ShapeId>, alive: set<ShapeId>): (r: map<K, ShapeId>)
    ensures forall k :: k in r <==> k in m && m[k] in alive
    ensures forall k :: k in r ==> r[k] == m[k]
  {
    map k | k in m && m[k] in alive :: m[k]
  }

  /** Clearing twice removes nothing more, and no live entry is lost. */
  lemma LiveEntriesIdempotent<K(!new)>(m: map<K, ShapeId>, alive: set<ShapeId>)
    ensures LiveEntries(LiveEntries(m, alive), alive) == LiveEntries(m, alive)
  {
  }

  /** `order` lists exactly the keys of `m` (an iteration order of the map). */
  ghost predicate Lists<K(!new)>(order: seq<K>, m: map<K, ShapeId>)
  {
    forall k :: k in order <==> k in m
  }

  /**
   * `clearExpiredObjects`: the keys of expired entries are gathered in the
   * map's iteration order `order`, then erased one by one.
   */
  method ClearExpired<K(!new)>(m: map<K, ShapeId>, order: seq<K>, alive: set<ShapeId>) returns (m': map<K, ShapeId>)
    requires Lists(order, m)
    ensures m' == LiveEntries(m, alive)
  {
    var objectsToRemove: seq<K> := [];
    var i := 0;
    while i < |order|
      invariant 0 <= i <= |order|
      invariant forall k :: k in objectsToRemove <==> k in order[..i] && m[k] !in alive
    {
      if m[order[i]] !in alive {
        objectsToRemove := objectsToRemove + [order[i]];
      }
      assert order[..i + 1] == order[..i] + [order[i]];
      i := i + 1;
    }
    assert order[..i] == order;
    m' := m;
    var j := 0;
    while j < |objectsToRemove|
      invariant 0 <= j <= |objectsToRemove|
      invariant m' == map k | k in m && k !in objectsToRemove[..j] :: m[k]
    {
      assert objectsToRemove[..j + 1] == objectsToRemove[..j] + [objectsToRemove[j]];
      m' := m' - {objectsToRemove[j]};
      j := j + 1;
    }
    assert objectsToRemove[..j] == objectsToRemove;
  }

  /** The shape a cache hands out for a key: the cached one while it has an owner. */
  function Cached<K(!new)>(m: map<K, ShapeId>, key: K, alive: set<ShapeId>): (r: Option<ShapeId>)
    ensures r.Some? <==> key in m && m[key] in alive
    ensures r.Some? ==> r.value == m[key]
  {
    if key in m && m[key] in alive then Some(m[key]) else None
  }

  /** Clearing expired entries never changes which shape a key hands out. */
  lemma ClearKeepsCached<K(!new)>(m: map<K, ShapeId>, key: K, alive: set<ShapeId>)
    ensures Cached(LiveEntries(m, alive), key, alive) == Cached(m, key, alive)
  {
    if key in m && m[key] in alive {
      assert key in LiveEntries(m, alive);
    }
  }

  // ---------------------------------------------------------------------
  // Bodies and the world

  /** `RigidBodyUserData`: the entity, the shape it keeps alive and the world. */
  datatype UserData = UserData(entity: EntityId, collisionShape: ShapeId, physicsWorld: World)

  /** What Bullet's own code sets on a new body, outside the engine's control. */
  datatype BulletDefaults = BulletDefaults(flags: bv32, collisionFlags: bv32, gravity: Vec3)

  /** A `btRigidBody` as far as the engine touches it. */
  class RigidBody {
    var flags: bv32
    var collisionFlags: bv32
    var gravity: Vec3
    const mass: real
    const localInertia: Vec3
    const pose: BodyPose
    const userData: UserData
    const rollingFriction: real

    constructor (mass: real, localInertia: Vec3, pose: BodyPose, userData: UserData, defaults: BulletDefaults)
      ensures this.mass == mass && this.localInertia == localInertia && this.pose == pose && this.userData == userData
      ensures flags == defaults.flags && collisionFlags == defaults.collisionFlags && gravity == defaults.gravity
      ensures rollingFriction == RollingFriction
    {
      this.mass, this.localInertia, this.pose, this.userData := mass, localInertia, pose, userData;
      flags, collisionFlags, gravity := defaults.flags, defaults.collisionFlags, defaults.gravity;
      rollingFriction := RollingFriction;
    }
  }

  /** The inertia a body is built with: Bullet's value for a dynamic body, zero for a static one. */
  function LocalInertia(shape: ShapeId, mass: real, inertiaOf: (ShapeId, real) -> Vec3): (r: Vec3)
    ensures mass == 0.0 ==> r == Vec3(0.0, 0.0, 0.0)
    ensures mass != 0.0 ==> r == inertiaOf(shape, mass)
  {
    if mass != 0.0 then inertiaOf(shape, mass) else Vec3(0.0, 0.0, 0.0)
  }

  /** `BodyEnableGravity`: the flag is cleared and the body takes its world's gravity. */
  method BodyEnableGravity(body: RigidBody)
    modifies body
    ensures body.flags == ClearBits(old(body.flags), DisableWorldGravity)
    ensures body.gravity == body.userData.physicsWorld.gravity
    ensures body.collisionFlags == old(body.collisionFlags)
  {
    body.flags := body.flags & !DisableWorldGravity;
    body.gravity := body.userData.physicsWorld.gravity;
  }

  /** `BodyDisableGravity`: the flag is set and the body's gravity is zero. */
  method BodyDisableGravity(body: RigidBody)
    modifies body
    ensures body.flags == SetBits(old(body.flags), DisableWorldGravity)
    ensures body.gravity == Vec3(0.0, 0.0, 0.0)
    ensures body.collisionFlags == old(body.collisionFlags)
  {
    body.flags := body.flags | DisableWorldGravity;
    body.gravity := Vec3(0.0, 0.0, 0.0);
  }

  /** `BodyEnableCollisions`: only the no-contact-response bit is cleared. */
  method BodyEnableCollisions(body: RigidBody)
    modifies body
    ensures body.collisionFlags == ClearBits(old(body.collisionFlags), NoContactResponse)
    ensures body.flags == old(body.flags) && body.gravity == old(body.gravity)
  {
    body.collisionFlags := body.collisionFlags & !NoContactResponse;
  }

  /** `BodyDisableCollisions`: only the no-contact-response bit is set. */
  method BodyDisableCollisions(body: RigidBody)
    modifies body
    ensures body.collisionFlags == SetBits(old(body.collisionFlags), NoContactResponse)
    ensures body.flags == old(body.flags) && body.gravity == old(body.gravity)
  {
    body.collisionFlags := body.collisionFlags | NoContactResponse;
  }

  // ---------------------------------------------------------------------
  // Ray tests

  /**
   * One hit of `AllHitsRayResultCallback`: the object's user data (None when
   * its user pointer is null), the object as a rigid body (null when it is
   * not one), and the hit point and normal.
   */
  datatype Hit = Hit(userData: Option<EntityId>, body: RigidBody?, hitPoint: Vec3, hitNormal: Vec3)

  /** `RaycastData`. */
  datatype RaycastData = RaycastData(entity: EntityId, hitPoint: Vec3, hitNormal: Vec3)

  /** The predicate of the `RaycastWorld` template, on entity, body, point and normal. */
  type HitPredicate = (EntityId, RigidBody?, Vec3, Vec3) -> bool

  predicate Keeps(h: Hit, predicate': HitPredicate)
  {
    h.userData.Some? && predicate'(h.userData.value, h.body, h.hitPoint, h.hitNormal)
  }

  /** The data of the hits kept, in hit order. */
  function Kept(hits: seq<Hit>, predicate': HitPredicate): (r: seq<RaycastData>)
    ensures |r| <= |hits|
  {
    if hits == [] then []
    else
      var h := hits[|hits| - 1];
      Kept(hits[..|hits| - 1], predicate') +
      (if Keeps(h, predicate') then [RaycastData(h.userData.value, h.hitPoint, h.hitNormal)] else [])
  }

  /** Every kept entry comes from a hit with user data that satisfies the predicate. */
  lemma {:induction false} KeptSound(hits: seq<Hit>, predicate': HitPredicate, j: nat) returns (i: nat)
    requires j < |Kept(hits, predicate')|
    ensures i < |hits| && Keeps(hits[i], predicate')
    ensures Kept(hits, predicate')[j] == RaycastData(hits[i].userData.value, hits[i].hitPoint, hits[i].hitNormal)
  {
    var n := |hits| - 1;
    if j < |Kept(hits[..n], predicate')| {
      i := KeptSound(hits[..n], predicate', j);
      assert hits[..n][i] == hits[i];
    } else {
      i := n;
    }
  }

  /** Every hit with user data that satisfies the predicate is kept. */
  lemma {:induction false} KeptComplete(hits: seq<Hit>, predicate': HitPredicate, i: nat)
    requires i < |hits| && Keeps(hits[i], predicate')
    ensures RaycastData(hits[i].userData.value, hits[i].hitPoint, hits[i].hitNormal) in Kept(hits, predicate')
  {
    var n := |hits| - 1;
    if i < n {
      KeptComplete(hits[..n], predicate', i);
      assert hits[..n][i] == hits[i];
    }
  }

  /** Kept entries keep the hit order: of two kept hits the earlier comes first. */
  lemma {:induction false} KeptInOrder(hits: seq<Hit>, predicate': HitPredicate, i: nat, i': nat)
    requires i < i' < |hits| && Keeps(hits[i], predicate') && Keeps(hits[i'], predicate')
    ensures |Kept(hits[..i], predicate')| < |Kept(hits[..i'], predicate')| < |Kept(hits, predicate')|
    ensures Kept(hits, predicate')[|Kept(hits[..i], predicate')|]
            == RaycastData(hits[i].userData.value, hits[i].hitPoint, hits[i].hitNormal)
    ensures Kept(hits, predicate')[|Kept(hits[..i'], predicate')|]
            == RaycastData(hits[i'].userData.value, hits[i'].hitPoint, hits[i'].hitNormal)
  {
    KeptAt(hits, predicate', i);
    KeptAt(hits, predicate', i');
    KeptPrefix(hits, predicate', i + 1, i');
    assert hits[..i + 1][..i] == hits[..i];
  }

  /** The entries kept from a prefix of the hits begin the entries kept from them all. */
  lemma {:induction false} KeptPrefix(hits: seq<Hit>, predicate': HitPredicate, m: nat, n: nat)
    requires m <= n <= |hits|
    ensures |Kept(hits[..m], predicate')| <= |Kept(hits[..n], predicate')|
    ensures Kept(hits[..n], predicate')[..|Kept(hits[..m], predicate')|] == Kept(hits[..m], predicate')
  {
    if m < n {
      KeptPrefix(hits, predicate', m, n - 1);
      assert hits[..n][..n - 1] == hits[..n - 1];
      var above := Kept(hits[..n - 1], predicate');
      var last := Kept(hits[..n], predicate')[|above|..];
      assert Kept(hits[..n], predicate') == above + last;
      assert (above + last)[..|Kept(hits[..m], predicate')|] == above[..|Kept(hits[..m], predicate')|];
    }
  }

  /** A kept hit i sits after the entries kept from the hits before it. */
  lemma KeptAt(hits: seq<Hit>, predicate': HitPredicate, i: nat)
    requires i < |hits| && Keeps(hits[i], predicate')
    ensures |Kept(hits[..i], predicate')| < |Kept(hits, predicate')|
    ensures Kept(hits, predicate')[|Kept(hits[..i], predicate')|]
            == RaycastData(hits[i].userData.value, hits[i].hitPoint, hits[i].hitNormal)
  {
    assert hits[..i + 1][..i] == hits[..i];
    assert Kept(hits[..i + 1], predicate')
           == Kept(hits[..i], predicate') + [RaycastData(hits[i].userData.value, hits[i].hitPoint, hits[i].hitNormal)];
    KeptPrefix(hits, predicate', i + 1, |hits|);
    assert hits[..|hits|] == hits;
    var k := |Kept(hits[..i], predicate')|;
    assert Kept(hits, predicate')[k] == Kept(hits, predicate')[..|Kept(hits[..i + 1], predicate')|][k];
  }

  /** `glm::distance2(from, a.hitPoint)`, the sort key. */
  function Distance2(from: Vec3, d: RaycastData): real
  {
    DistSq3(from, d.hitPoint)
  }

  predicate SortedByDistance(from: Vec3, s: seq<RaycastData>)
  {
    forall i, j :: 0 <= i < j < |s| ==> Distance2(from, s[i]) <= Distance2(from, s[j])
  }

  /** Insert d before the first entry farther from `from` than it. */
  function Insert(from: Vec3, d: RaycastData, s: seq<RaycastData>): (r: seq<RaycastData>)
    ensures multiset(r) == multiset(s) + multiset{d}
  {
    if s == [] then [d]
    else if Distance2(from, d) <= Distance2(from, s[0]) then [d] + s
    else
      assert s == [s[0]] + s[1..];
      [s[0]] + Insert(from, d, s[1..])
  }

  lemma {:induction false} InsertSorted(from: Vec3, d: RaycastData, s: seq<RaycastData>)
    requires SortedByDistance(from, s)
    ensures SortedByDistance(from, Insert(from, d, s))
  {
    if s != [] && Distance2(from, d) > Distance2(from, s[0]) {
      InsertSorted(from, d, s[1..]);
      var rest := Insert(from, d, s[1..]);
      assert forall k :: 0 <= k < |rest| ==> Distance2(from, s[0]) <= Distance2(from, rest[k]) by {
        forall k | 0 <= k < |rest|
          ensures Distance2(from, s[0]) <= Distance2(from, rest[k])
        {
          assert rest[k] in multiset(rest);
          assert rest[k] in multiset(s[1..]) + multiset{d};
          if rest[k] != d {
            assert rest[k] in s[1..];
          }
        }
      }
    }
  }

  /**
   * `std::sort` with the distance comparison: a permutation of its input in
   * non-decreasing distance from `from`.  The order among equally distant
   * entries is one of those `std::sort` may produce.
   */
  function SortByDistance(from: Vec3, s: seq<RaycastData>): (r: seq<RaycastData>)
    ensures multiset(r) == multiset(s)
  {
    if s == [] then []
    else
      assert s == [s[0]] + s[1..];
      Insert(from, s[0], SortByDistance(from, s[1..]))
  }

  lemma {:induction false} SortByDistanceSorted(from: Vec3, s: seq<RaycastData>)
    ensures SortedByDistance(from, SortByDistance(from, s))
  {
    if s != [] {
      SortByDistanceSorted(from, s[1..]);
      InsertSorted(from, s[0], SortByDistance(from, s[1..]));
    }
  }

  /**
   * The filtering loop of `RaycastWorld` over the hits `rayTest` reported:
   * hits without user data or rejected by the predicate are skipped.
   */
  method FilterHits(hits: seq<Hit>, predicate': HitPredicate) returns (result: seq<RaycastData>)
    ensures result == Kept(hits, predicate')
  {
    result := [];
    var i := 0;
    while i < |hits|
      invariant 0 <= i <= |hits|
      invariant result == Kept(hits[..i], predicate')
    {
      var h := hits[i];
      assert hits[..i + 1][..i] == hits[..i];
      if h.userData.None? {
        i := i + 1;
        continue;
      }
      if !predicate'(h.userData.value, h.body, h.hitPoint, h.hitNormal) {
        i := i + 1;
        continue;
      }
      result := result + [RaycastData(h.userData.value, h.hitPoint, h.hitNormal)];
      i := i + 1;
    }
    assert hits[..i] == hits;
  }

  /**
   * `RaycastWorld` with a predicate: the kept hits, in hit order, or sorted
   * by distance from `from` when asked.
   */
  method RaycastWorldWhere(from: Vec3, hits: seq<Hit>, sortByDist: bool, predicate': HitPredicate)
    returns (result: seq<RaycastData>)
    ensures |result| <= |hits|
    ensures !sortByDist ==> result == Kept(hits, predicate')
    ensures sortByDist ==> SortedByDistance(from, result) && multiset(result) == multiset(Kept(hits, predicate'))
  {
    result := FilterHits(hits, predicate');
    if sortByDist {
      SortByDistanceSorted(from, result);
      result := SortByDistance(from, result);
      assert |result| == |multiset(result)|;
    }
  }

  /** The predicate of the overload without one. */
  function AnyHit(): HitPredicate
  {
    (entity: EntityId, body: RigidBody?, hitPoint: Vec3, hitNormal: Vec3) => true
  }

  /** Without a predicate exactly the hits that carry user data are kept. */
  lemma AnyHitKeeps(h: Hit)
    ensures Keeps(h, AnyHit()) <==> h.userData.Some?
  {
  }

  /** `RaycastWorld` without a predicate: the same loop, keeping every hit with user data. */
  method RaycastWorld(from: Vec3, hits: seq<Hit>, sortByDist: bool) returns (result: seq<RaycastData>)
    ensures |result| <= |hits|
    ensures !sortByDist ==> result == Kept(hits, AnyHit())
    ensures sortByDist ==> SortedByDistance(from, result) && multiset(result) == multiset(Kept(hits, AnyHit()))
  {
    result := RaycastWorldWhere(from, hits, sortByDist, AnyHit());
  }

  /**
   * `PhysicsWorld`: the three shape caches, the shapes made so far (by
   * identity, in creation order), the bodies added to the dynamics world and
   * its gravity.
   */
  class World {
    var boxShapes: map<Vec3, ShapeId>
    var sphereShapes: map<real, ShapeId>
    var capsuleShapes: map<Vec2, ShapeId>
    var shapes: seq<Shape>
    var bodies: set<RigidBody>
    const gravity: Vec3

    /** Every cached entry names a shape already made, of the kind and size of its key. */
    predicate Valid()
      reads this
    {
      (forall k :: k in boxShapes ==> boxShapes[k] < |shapes| && shapes[boxShapes[k]] == Box(k)) &&
      (forall k :: k in sphereShapes ==> sphereShapes[k] < |shapes| && shapes[sphereShapes[k]] == Sphere(k)) &&
      (forall k :: k in capsuleShapes ==> capsuleShapes[k] < |shapes| && shapes[capsuleShapes[k]] == Capsule(k.x, k.y))
    }

    constructor ()
      ensures Valid() && gravity == WorldGravity
      ensures boxShapes == map[] && sphereShapes == map[] && capsuleShapes == map[] && shapes == [] && bodies == {}
    {
      boxShapes, sphereShapes, capsuleShapes, shapes, bodies := map[], map[], map[], [], {};
      gravity := WorldGravity;
    }

    /** `Update`: every cache drops the entries whose shape has no owner left. */
    method Update(alive: set<ShapeId>, boxOrder: seq<Vec3>, sphereOrder: seq<real>, capsuleOrder: seq<Vec2>)
      requires Valid()
      requires Lists(boxOrder, boxShapes)
      requires Lists(sphereOrder, sphereShapes)
      requires Lists(capsuleOrder, capsuleShapes)
      modifies this
      ensures Valid()
      ensures boxShapes == LiveEntries(old(boxShapes), alive)
      ensures sphereShapes == LiveEntries(old(sphereShapes), alive)
      ensures capsuleShapes == LiveEntries(old(capsuleShapes), alive)
      ensures shapes == old(shapes) && bodies == old(bodies)
    {
      var boxes := ClearExpired(boxShapes, boxOrder, alive);
      var spheres := ClearExpired(sphereShapes, sphereOrder, alive);
      var capsules := ClearExpired(capsuleShapes, capsuleOrder, alive);
      boxShapes, sphereShapes, capsuleShapes := boxes, spheres, capsules;
    }

    /** A new shape: distinct from every shape made before. */
    method MakeShape(s: Shape) returns (id: ShapeId)
      modifies this
      ensures id == |old(shapes)| && shapes == old(shapes) + [s]
      ensures boxShapes == old(boxShapes) && sphereShapes == old(sphereShapes) && capsuleShapes == old(capsuleShapes)
      ensures bodies == old(bodies)
    {
      id := |shapes|;
      shapes := shapes + [s];
    }

    /**
     * `GetBoxCollider`: the cached box while it has an owner; otherwise a new
     * box stored under the half extents.
     */
    method GetBoxCollider(halfExtents: Vec3, alive: set<ShapeId>) returns (shape: ShapeId)
      requires Valid()
      modifies this
      ensures Valid() && shape < |shapes| && shapes[shape] == Box(halfExtents)
      ensures old(Cached(boxShapes, halfExtents, alive)).Some? ==>
                shape == old(boxShapes[halfExtents]) && boxShapes == old(boxShapes) && shapes == old(shapes)
      ensures old(Cached(boxShapes, halfExtents, alive)).None? ==>
                shape == |old(shapes)| && shapes == old(shapes) + [Box(halfExtents)] &&
                boxShapes == old(boxShapes)[halfExtents := shape]
      ensures sphereShapes == old(sphereShapes) && capsuleShapes == old(capsuleShapes) && bodies == old(bodies)
    {
      if halfExtents in boxShapes && boxShapes[halfExtents] in alive {
        return boxShapes[halfExtents];
      }
      shape := MakeShape(Box(halfExtents));
      boxShapes := boxShapes[halfExtents := shape];
    }

    /** `GetSphereCollider`, cached by radius. */
    method GetSphereCollider(radius: real, alive: set<ShapeId>) returns (shape: ShapeId)
      requires Valid()
      modifies this
      ensures Valid() && shape < |shapes| && shapes[shape] == Sphere(radius)
      ensures old(Cached(sphereShapes, radius, alive)).Some? ==>
                shape == old(sphereShapes[radius]) && sphereShapes == old(sphereShapes) && shapes == old(shapes)
      ensures old(Cached(sphereShapes, radius, alive)).None? ==>
                shape == |old(shapes)| && shapes == old(shapes) + [Sphere(radius)] &&
                sphereShapes == old(sphereShapes)[radius := shape]
      ensures boxShapes == old(boxShapes) && capsuleShapes == old(capsuleShapes) && bodies == old(bodies)
    {
      if radius in sphereShapes && sphereShapes[radius] in alive {
        return sphereShapes[radius];
      }
      shape := MakeShape(Sphere(radius));
      sphereShapes := sphereShapes[radius := shape];
    }

    /** `GetCapsuleCollider`, cached by `glm::vec2(radius, height)`. */
    method GetCapsuleCollider(radius: real, height: real, alive: set<ShapeId>) returns (shape: ShapeId)
      requires Valid()
      modifies this
      ensures Valid() && shape < |shapes| && shapes[shape] == Capsule(radius, height)
      ensures old(Cached(capsuleShapes, Vec2(radius, height), alive)).Some? ==>
                shape == old(capsuleShapes[Vec2(radius, height)]) && capsuleShapes == old(capsuleShapes) && shapes == old(shapes)
      ensures old(Cached(capsuleShapes, Vec2(radius, height), alive)).None? ==>
                shape == |old(shapes)| && shapes == old(shapes) + [Capsule(radius, height)] &&
                capsuleShapes == old(capsuleShapes)[Vec2(radius, height) := shape]
      ensures boxShapes == old(boxShapes) && sphereShapes == old(sphereShapes) && bodies == old(bodies)
    {
      var key := Vec2(radius, height);
      if key in capsuleShapes && capsuleShapes[key] in alive {
        return capsuleShapes[key];
      }
      shape := MakeShape(Capsule(radius, height));
      capsuleShapes := capsuleShapes[key := shape];
    }

    /**
     * `CreateRigidBody`: a body is dynamic, and gets Bullet's local inertia,
     * exactly when its mass is not zero; its user data records the entity,
     * the shape and this world, and it joins the world's bodies.
     */
    method CreateRigidBody(entity: EntityId, colShape: ShapeId, mass: real, position: Vec3, rotation: Vec3,
                           inertiaOf: (ShapeId, real) -> Vec3, defaults: BulletDefaults)
      returns (body: RigidBody)
      modifies this
      ensures fresh(body) && bodies == old(bodies) + {body}
      ensures body.mass == mass && body.localInertia == LocalInertia(colShape, mass, inertiaOf)
      ensures body.pose == BodyPose(position, rotation)
      ensures body.userData == UserData(entity, colShape, this) && body.rollingFriction == RollingFriction
      ensures boxShapes == old(boxShapes) && sphereShapes == old(sphereShapes) && capsuleShapes == old(capsuleShapes)
      ensures shapes == old(shapes)
    {
      var isDynamic := mass != 0.0;
      var localInertia := Vec3(0.0, 0.0, 0.0);
      if isDynamic {
        localInertia := inertiaOf(colShape, mass);
      }
      body := new RigidBody(mass, localInertia, BodyPose(position, rotation), UserData(entity, colShape, this), defaults);
      bodies := bodies + {body};
    }

    /** `DestroyRigidBody`: a null body is ignored; otherwise it leaves the world. */
    method DestroyRigidBody(body: RigidBody?)
      modifies this
      ensures body == null ==> bodies == old(bodies)
      ensures body != null ==> bodies == old(bodies) - {body}
      ensures boxShapes == old(boxShapes) && sphereShapes == old(sphereShapes) && capsuleShapes == old(capsuleShapes)
      ensures shapes == old(shapes)
    {
      if body == null {
        return;
      }
      bodies := bodies - {body};
    }
  }
}

// The entity components the renderer reads and writes, and the entity
// registry as a sequence of entities in the registry's iteration order.

module Components {
  import opened Common
  import opened Glm

  /** A renderable mesh instance. `highlightId` and `hidden` reset every frame. */
  datatype MeshComponent = MeshComponent(
    mesh: MeshId,
    position: Vec3,
    rotation: Vec3,
    scale: Vec3,
    highlightId: Byte,
    hidden: bool,
    hiddenPersistent: bool)

  datatype TransformComponent = TransformComponent(position: Vec3, rotation: Vec3, scale: Vec3)

  /** The world transform of a rigid body: its origin and its ZYX euler angles. */
  datatype BodyPose = BodyPose(origin: Vec3, euler: Vec3)

  /** `btRigidBody* body`, `None` when the pointer is null. */
  datatype RigidBodyComponent = RigidBodyComponent(body: Option<BodyPose>)

  /** The components of one entity that the renderer looks at; each may be absent. */
  datatype Entity = Entity(
    meshComp: Option<MeshComponent>,
    rigidBody: Option<RigidBodyComponent>,
    transform: Option<TransformComponent>)

  /** The entities of a scene, in the registry's iteration order. */
  class Registry {
    var entities: seq<Entity>

    constructor (entities: seq<Entity>)
      ensures this.entities == entities
    {
      this.entities := entities;
    }
  }
}

// The editor bookkeeping of src/wgleng/util/SceneBuilder.cpp: the list of
// saved entity states, the selection (a `std::set<int32_t>`, kept here as a
// strictly increasing sequence, its iteration order), the blink animation of
// freshly selected entities, and the edits the tool window applies to the
// selected states (flags, tag, create, delete, clone, play, load).
//
// ImGui widgets are not modelled: which row, button or checkbox was clicked
// is an input.  The entt registry is not modelled either: the calls the
// builder makes to `RecreateEntity` are returned, in order, as `Recreate`
// records, and `Spawned` says what one such call builds.

module SceneEditor {
  import opened Common
  import opened Glm
  import opened Components
  import PhysicsWorld

  /** A time point or a duration, in milliseconds. */
  type Millis = int

  /** `1h`, the amount `Blink(_, true)` and Delete age a blink by. */
  const Hour: Millis := 3_600_000

  /** The visibility of a blinking entity flips every 150 ms ... */
  const BlinkStep: Millis := 150

  /** ... for 2000 ms, after which it is shown and its blink is over. */
  const BlinkLength: Millis := 2000

  const Zero3 := Vec3(0.0, 0.0, 0.0)
  const One3 := Vec3(1.0, 1.0, 1.0)

  /** `SceneBuilder::State`: everything the editor stores about one entity. */
  datatype State = State(
    position: Vec3,
    rotation: Vec3,
    scale: Vec3,
    selectedModel: int,
    modelOffset: Vec3,
    modelRotation: Vec3,
    modelScale: Vec3,
    tag: string,
    flags: bv32,
    selectedCollider: int,
    mass: real,
    friction: real,
    boxColliderSize: Vec3,
    sphereColliderRadius: real,
    capsuleColliderRadius: real,
    capsuleColliderHeight: real)

  /** The member initialisers of `State`: no model, no collider, unit scale, friction 0.5. */
  const DefaultState := State(Zero3, Zero3, One3, -1, Zero3, Zero3, One3, "", 0,
                              -1, 0.0, 0.5, One3, 1.0, 1.0, 1.0)

  /** `m_colliders` as the constructor fills it. */
  const ColliderNames: seq<string> := ["Box", "Sphere", "Capsule"]

  /** The flags `FlagSelector` offers, in order: PICKABLE, INTERACTABLE, DISABLE_COLLISIONS, DISABLE_GRAVITY. */
  const FlagValues: seq<bv32> := [1, 2, 4, 8]

  /** The state's model and collider indices can be looked up (-1 is "none"). */
  predicate Fits(s: State, modelCount: nat)
  {
    (s.selectedModel == -1 || 0 <= s.selectedModel < modelCount) &&
    -1 <= s.selectedCollider < |ColliderNames|
  }

  // ---------------------------------------------------------------------
  // RecreateEntity

  /** The arguments of one `RecreateEntity(index, useMass, invisible)` call and the state it reads. */
  datatype Recreate = Recreate(index: int, state: State, useMass: bool, invisible: bool)

  /** The `MeshComponent` a recreated entity gets: the model by name, its offset, rotation and scale. */
  datatype MeshPart = MeshPart(model: string, position: Vec3, rotation: Vec3, scale: Vec3)

  /** The rigid body a recreated entity gets; `collider` is `None` for a null shape. */
  datatype BodyPart = BodyPart(collider: Option<PhysicsWorld.Shape>, mass: real, position: Vec3,
                               rotation: Vec3, friction: real)

  /** The components `RecreateEntity` gives the new entity. */
  datatype Spawn = Spawn(
    flags: bv32,
    tag: Option<string>,
    mesh: Option<MeshPart>,
    transform: Option<TransformComponent>,
    body: Option<BodyPart>)

  /** The collision shape requested for a state; `g` is the global scale (0 when invisible). */
  function ColliderOf(s: State, g: real, length: Vec3 -> real): (r: Option<PhysicsWorld.Shape>)
    requires 0 <= s.selectedCollider < |ColliderNames|
    ensures r.Some?
  {
    var name := ColliderNames[s.selectedCollider];
    if name == "Box" then Some(PhysicsWorld.Box(Mul3(Scale3(s.boxColliderSize, g), s.scale)))
    else if name == "Sphere" then Some(PhysicsWorld.Sphere(g * s.sphereColliderRadius * length(s.scale)))
    else if name == "Capsule" then
      Some(PhysicsWorld.Capsule(g * s.capsuleColliderRadius * length(s.scale), s.capsuleColliderHeight * length(s.scale)))
    else None
  }

  /**
   * What `RecreateEntity` builds from a state. An entity with a model gets a
   * mesh; one with a collider gets a rigid body, which then carries its pose,
   * and only a model without a collider gets a transform. The body is static
   * (mass 0) unless `useMass`. `length` is `glm::length`.
   */
  function Spawned(s: State, models: seq<string>, useMass: bool, invisible: bool, length: Vec3 -> real): (r: Spawn)
    requires Fits(s, |models|)
    ensures r.flags == s.flags && (r.tag.Some? <==> s.tag != "")
    ensures r.mesh.Some? <==> s.selectedModel != -1
    ensures r.body.Some? <==> s.selectedCollider != -1
    ensures r.transform.Some? <==> r.mesh.Some? && r.body.None?
    ensures r.body.Some? ==> r.body.value.collider.Some?
    ensures r.body.Some? ==> r.body.value.mass == (if useMass then s.mass else 0.0)
    ensures invisible && r.mesh.Some? ==> r.mesh.value.scale == Zero3
    ensures invisible && r.transform.Some? ==> r.transform.value.scale == Zero3
  {
    var g := if invisible then 0.0 else 1.0;
    var mesh :=
      if s.selectedModel == -1 then None
      else Some(MeshPart(models[s.selectedModel], s.modelOffset, s.modelRotation,
                         Mul3(Scale3(s.modelScale, g), if s.selectedCollider != -1 then s.scale else One3)));
    var transform :=
      if s.selectedModel != -1 && s.selectedCollider == -1
      then Some(TransformComponent(s.position, s.rotation, Scale3(s.scale, g)))
      else None;
    var body :=
      if s.selectedCollider == -1 then None
      else Some(BodyPart(ColliderOf(s, g, length), if useMass then s.mass else 0.0, s.position, s.rotation, s.friction));
    Spawn(s.flags, if s.tag == "" then None else Some(s.tag), mesh, transform, body)
  }

  /**
   * Hiding an entity for a blink changes sizes only: the same components,
   * flags, tag, pose, mass and friction, a zero box and zero radii. The
   * capsule's height is not scaled by the global scale and keeps its size.
   */
  lemma HiddenChangesOnlySizes(s: State, models: seq<string>, useMass: bool, length: Vec3 -> real)
    requires Fits(s, |models|)
    ensures var shown, hidden := Spawned(s, models, useMass, false, length), Spawned(s, models, useMass, true, length);
      shown.flags == hidden.flags && shown.tag == hidden.tag &&
      shown.mesh.Some? == hidden.mesh.Some? && shown.transform.Some? == hidden.transform.Some? &&
      shown.body.Some? == hidden.body.Some? &&
      (hidden.mesh.Some? ==> hidden.mesh.value == shown.mesh.value.(scale := Zero3)) &&
      (hidden.transform.Some? ==> hidden.transform.value == shown.transform.value.(scale := Zero3)) &&
      (hidden.body.Some? ==>
        var b, b' := shown.body.value, hidden.body.value;
        b'.mass == b.mass && b'.position == b.position && b'.rotation == b.rotation && b'.friction == b.friction &&
        match b'.collider.value
        case Box(h) => h == Zero3
        case Sphere(r) => r == 0.0
        case Capsule(r, height) => r == 0.0 && b.collider.value.Capsule? && height == b.collider.value.height)
  {
  }

  // ---------------------------------------------------------------------
  // The selection: a std::set<int32_t> in iteration order

  predicate Increasing(s: seq<int>)
  {
    forall a, b :: 0 <= a < b < |s| ==> s[a] < s[b]
  }

  /** `std::set::insert`. */
  function Insert(s: seq<int>, x: int): (r: seq<int>)
    requires Increasing(s)
    ensures Increasing(r)
    ensures forall y :: y in r <==> y in s || y == x
    ensures forall k :: 0 <= k < |r| ==> r[k] == x || (s != [] && s[0] <= r[k])
  {
    if s == [] then [x]
    else if x < s[0] then [x] + s
    else if x == s[0] then s
    else [s[0]] + Insert(s[1..], x)
  }

  /** `std::set::erase`. */
  function Erase(s: seq<int>, x: int): (r: seq<int>)
    requires Increasing(s)
    ensures Increasing(r)
    ensures forall y :: y in r <==> y in s && y != x
    ensures forall k :: 0 <= k < |r| ==> s != [] && s[0] <= r[k]
  {
    if s == [] then []
    else if s[0] == x then Erase(s[1..], x)
    else [s[0]] + Erase(s[1..], x)
  }

  /** The first element of an increasing sequence is its least, and the others are the rest. */
  lemma HeadLeast(s: seq<int>, y: int)
    requires Increasing(s) && y in s
    ensures s[0] <= y && (y != s[0] ==> y in s[1..])
  {
    var j :| 0 <= j < |s| && s[j] == y;
    if j > 0 {
      assert s[1..][j - 1] == y;
    }
  }

  /** Two sequences with the same elements are both empty or both not. */
  lemma SameEmptiness(a: seq<int>, b: seq<int>)
    requires forall y :: y in a <==> y in b
    ensures a == [] <==> b == []
  {
    if a != [] {
      var y := a[0];
      assert y in a;
    }
    if b != [] {
      var y := b[0];
      assert y in b;
    }
  }

  /** A set has one iteration order: increasing sequences with the same elements are equal. */
  lemma {:induction false} IncreasingUnique(a: seq<int>, b: seq<int>)
    requires Increasing(a) && Increasing(b)
    requires forall y :: y in a <==> y in b
    ensures a == b
  {
    SameEmptiness(a, b);
    if a != [] {
      var a0, b0 := a[0], b[0];
      assert a0 in a && b0 in b;
      HeadLeast(b, a0);
      HeadLeast(a, b0);
      forall y
        ensures y in a[1..] <==> y in b[1..]
      {
        if y in a[1..] {
          assert y in a && y != a[0];
          HeadLeast(b, y);
        }
        if y in b[1..] {
          assert y in b && y != b[0];
          HeadLeast(a, y);
        }
      }
      IncreasingUnique(a[1..], b[1..]);
      assert a == [a[0]] + a[1..] && b == [b[0]] + b[1..];
    }
  }

  /** Every element of s lies in [0, n). */
  predicate Below(s: seq<int>, n: int)
  {
    forall k :: 0 <= k < |s| ==> 0 <= s[k] < n
  }

  /** Inserting a position in range keeps every position in range. */
  lemma InsertBelow(s: seq<int>, x: int, n: int)
    requires Increasing(s) && Below(s, n) && 0 <= x < n
    ensures Below(Insert(s, x), n)
  {
    var r := Insert(s, x);
    forall k | 0 <= k < |r|
      ensures 0 <= r[k] < n
    {
      var y := r[k];
      assert y in r;
      if y != x {
        var j :| 0 <= j < |s| && s[j] == y;
      }
    }
  }

  /** Erasing keeps every position in range. */
  lemma EraseBelow(s: seq<int>, x: int, n: int)
    requires Increasing(s) && Below(s, n)
    ensures Below(Erase(s, x), n)
  {
    var r := Erase(s, x);
    forall k | 0 <= k < |r|
      ensures 0 <= r[k] < n
    {
      var y := r[k];
      assert y in r;
      var j :| 0 <= j < |s| && s[j] == y;
    }
  }

  /** Inserting an element larger than all others appends it. */
  lemma {:induction false} InsertLargest(s: seq<int>, x: int)
    requires Increasing(s)
    requires forall k :: 0 <= k < |s| ==> s[k] < x
    ensures Insert(s, x) == s + [x]
  {
    if s != [] {
      InsertLargest(s[1..], x);
      assert [s[0]] + (s[1..] + [x]) == s + [x];
    }
  }

  /** The outcome of a click on a row of the entity list: the new selection and whether a blink starts. */
  datatype ClickResult = ClickResult(selection: seq<int>, blink: bool)

  /**
   * A ctrl-click toggles the row; a plain click selects only that row,
   * except that a plain click on the only selected row deselects it. A
   * blink starts exactly when the row ends up selected by a change.
   */
  function Clicked(sel: seq<int>, i: int, ctrl: bool): (r: ClickResult)
    requires Increasing(sel)
    ensures Increasing(r.selection)
    ensures ctrl ==> forall y :: y in r.selection <==> (if y == i then i !in sel else y in sel)
    ensures !ctrl && (i !in sel || |sel| > 1) ==> r.selection == [i]
    ensures !ctrl && sel == [i] ==> r.selection == []
    ensures r.blink <==> i in r.selection && r.selection != sel
  {
    if ctrl then
      if i in sel then ClickResult(Erase(sel, i), false) else ClickResult(Insert(sel, i), true)
    else if i in sel && |sel| == 1 then ClickResult([], false)
    else ClickResult([i], true)
  }

  /** Two ctrl-clicks on the same row leave the selection as it was. */
  lemma CtrlClickTwice(sel: seq<int>, i: int)
    requires Increasing(sel)
    ensures Clicked(Clicked(sel, i, true).selection, i, true).selection == sel
  {
    IncreasingUnique(Clicked(Clicked(sel, i, true).selection, i, true).selection, sel);
  }

  // ---------------------------------------------------------------------
  // Blinks

  /** One `m_blinks` entry: the row to blink and when its blink started. */
  datatype BlinkEntry = BlinkEntry(index: int, start: Millis)

  /** The number of times the toggle loop flips `show`: the multiples of 150 ms below `elapsed`. */
  function Flips(elapsed: Millis): nat
  {
    if elapsed <= 0 then 0 else (elapsed - 1) / BlinkStep + 1
  }

  /** `Flips` counts the k with 0 <= 150 k < elapsed. */
  lemma FlipsCount(elapsed: Millis, k: nat)
    ensures k < Flips(elapsed) <==> k * BlinkStep < elapsed
  {
  }

  /** Whether the entity is drawn `elapsed` ms into its blink: on an even flip count, and always once the blink is over. */
  function Shown(elapsed: Millis): bool
  {
    elapsed > BlinkLength || Flips(elapsed) % 2 == 0
  }

  /** The entry's row exists (`index >= size()` compares as unsigned, so a negative index is out of range too). */
  predicate InRange(e: BlinkEntry, count: nat)
  {
    0 <= e.index < count
  }

  predicate Finished(e: BlinkEntry, now: Millis)
  {
    now - e.start > BlinkLength
  }

  /** The first n blink entries after a tick: only those in range and not finished stay, in order. */
  function Ticked(b: seq<BlinkEntry>, count: nat, now: Millis, n: nat): (r: seq<BlinkEntry>)
    requires n <= |b|
    ensures |r| <= n
  {
    if n == 0 then []
    else
      var e := b[n - 1];
      Ticked(b, count, now, n - 1) + (if InRange(e, count) && !Finished(e, now) then [e] else [])
  }

  /** The recreations a tick makes for the first n entries: each in-range entry, shown or hidden. */
  function Blinked(b: seq<BlinkEntry>, states: seq<State>, now: Millis, n: nat): (r: seq<Recreate>)
    requires n <= |b|
    ensures |r| <= n
  {
    if n == 0 then []
    else
      var e := b[n - 1];
      Blinked(b, states, now, n - 1) +
        (if InRange(e, |states|) then [Recreate(e.index, states[e.index], false, !Shown(now - e.start))] else [])
  }

  /** One more entry of a tick: kept when in range and not finished, recreated when in range. */
  lemma TickNext(b: seq<BlinkEntry>, states: seq<State>, now: Millis, j: nat)
    requires j < |b|
    ensures var e := b[j];
      Ticked(b, |states|, now, j + 1) ==
        Ticked(b, |states|, now, j) + (if InRange(e, |states|) && !Finished(e, now) then [e] else []) &&
      Blinked(b, states, now, j + 1) ==
        Blinked(b, states, now, j) +
          (if InRange(e, |states|) then [Recreate(e.index, states[e.index], false, !Shown(now - e.start))] else [])
  {
  }

  lemma TailFrom<X>(s: seq<X>, j: nat)
    requires j < |s|
    ensures s[j..][0] == s[j] && s[j..][1..] == s[j + 1..]
  {
  }

  /** Erasing the element after a prefix t leaves t and the rest's tail. */
  lemma EraseAt<X>(t: seq<X>, rest: seq<X>)
    requires rest != []
    ensures (t + rest)[|t|] == rest[0]
    ensures (t + rest)[..|t|] + (t + rest)[|t| + 1..] == t + rest[1..]
  {
    assert (t + rest)[..|t|] == t;
    assert (t + rest)[|t| + 1..] == rest[1..];
  }

  /** Stepping over the element after a prefix t moves it into the prefix. */
  lemma StepOver<X>(t: seq<X>, rest: seq<X>)
    requires rest != []
    ensures t + rest == (t + [rest[0]]) + rest[1..]
  {
    assert rest == [rest[0]] + rest[1..];
  }

  /** An entry survives a tick iff it was there, its row exists and it has not finished. */
  lemma {:induction false} TickedMembers(b: seq<BlinkEntry>, count: nat, now: Millis, n: nat, e: BlinkEntry)
    requires n <= |b|
    ensures e in Ticked(b, count, now, n) <==> e in b[..n] && InRange(e, count) && !Finished(e, now)
  {
    if n > 0 {
      TickedMembers(b, count, now, n - 1, e);
      assert b[..n] == b[..n - 1] + [b[n - 1]];
    }
  }

  /** Every recreation a tick makes comes from an in-range entry and is hidden exactly on an odd flip before the end. */
  lemma {:induction false} BlinkedSound(b: seq<BlinkEntry>, states: seq<State>, now: Millis, n: nat, k: nat) returns (i: nat)
    requires n <= |b| && k < |Blinked(b, states, now, n)|
    ensures i < n && InRange(b[i], |states|)
    ensures Blinked(b, states, now, n)[k] == Recreate(b[i].index, states[b[i].index], false, !Shown(now - b[i].start))
  {
    var prev := Blinked(b, states, now, n - 1);
    if k < |prev| {
      i := BlinkedSound(b, states, now, n - 1, k);
    } else {
      i := n - 1;
    }
  }

  /** Every in-range entry is recreated once per tick: there are as many recreations as in-range entries. */
  lemma {:induction false} BlinkedCount(b: seq<BlinkEntry>, states: seq<State>, now: Millis, n: nat)
    requires n <= |b|
    ensures |Blinked(b, states, now, n)| == |Ticked(b, |states|, now, n)| + FinishedInRange(b, |states|, now, n)
  {
    if n > 0 {
      BlinkedCount(b, states, now, n - 1);
    }
  }

  /** The number of in-range, finished entries among the first n. */
  function FinishedInRange(b: seq<BlinkEntry>, count: nat, now: Millis, n: nat): nat
    requires n <= |b|
  {
    if n == 0 then 0
    else FinishedInRange(b, count, now, n - 1) + (if InRange(b[n - 1], count) && Finished(b[n - 1], now) then 1 else 0)
  }

  function Age(e: BlinkEntry): BlinkEntry
  {
    e.(start := e.start - Hour)
  }

  /** The blinks with every entry aged by an hour. */
  function AgedAll(b: seq<BlinkEntry>): (r: seq<BlinkEntry>)
    ensures |r| == |b|
    ensures forall k :: 0 <= k < |b| ==> r[k].index == b[k].index
  {
    seq(|b|, k requires 0 <= k < |b| => Age(b[k]))
  }

  /** The blinks with the entries of selected rows aged by an hour. */
  function AgedSelected(b: seq<BlinkEntry>, sel: seq<int>): (r: seq<BlinkEntry>)
    ensures |r| == |b|
    ensures forall k :: 0 <= k < |b| ==> r[k].index == b[k].index
  {
    seq(|b|, k requires 0 <= k < |b| => if b[k].index in sel then Age(b[k]) else b[k])
  }

  /** Ageing finishes a blink: entries that started no later than now all go at a tick now. */
  lemma {:induction false} AgedThenTicked(b: seq<BlinkEntry>, count: nat, now: Millis, n: nat)
    requires n <= |b|
    requires forall k :: 0 <= k < |b| ==> b[k].start <= now
    ensures Ticked(AgedAll(b), count, now, n) == []
  {
    if n > 0 {
      AgedThenTicked(b, count, now, n - 1);
      assert Finished(AgedAll(b)[n - 1], now);
    }
  }

  // ---------------------------------------------------------------------
  // Delete: erasing the selected rows one by one

  /** The number of elements of D below n. */
  function CountBelow(D: seq<int>, n: nat): (c: nat)
    ensures c <= n
  {
    if n == 0 then 0 else CountBelow(D, n - 1) + (if n - 1 in D then 1 else 0)
  }

  /** The first n elements of xs whose positions are not in D, in order. */
  function Remaining<T>(xs: seq<T>, D: seq<int>, n: nat): (r: seq<T>)
    requires n <= |xs|
  {
    if n == 0 then [] else Remaining(xs, D, n - 1) + (if n - 1 in D then [] else [xs[n - 1]])
  }

  lemma {:induction false} RemainingLength<T>(xs: seq<T>, D: seq<int>, n: nat)
    requires n <= |xs|
    ensures |Remaining(xs, D, n)| == n - CountBelow(D, n)
  {
    if n > 0 {
      RemainingLength(xs, D, n - 1);
    }
  }

  /** Past the last position of D, everything remains. */
  lemma {:induction false} RemainingSplit<T>(xs: seq<T>, D: seq<int>, m: nat, n: nat)
    requires m <= n <= |xs|
    requires forall k :: 0 <= k < |D| ==> !(m <= D[k] < n)
    ensures Remaining(xs, D, n) == Remaining(xs, D, m) + xs[m..n]
  {
    if n > m {
      RemainingSplit(xs, D, m, n - 1);
      assert n - 1 !in D;
      assert xs[m..n] == xs[m..n - 1] + [xs[n - 1]];
    }
  }

  /** Only the positions of D below n matter. */
  lemma {:induction false} RemainingAgree<T>(xs: seq<T>, D: seq<int>, D': seq<int>, n: nat)
    requires n <= |xs|
    requires forall j :: 0 <= j < n ==> (j in D <==> j in D')
    ensures Remaining(xs, D, n) == Remaining(xs, D', n) && CountBelow(D, n) == CountBelow(D', n)
  {
    if n > 0 {
      RemainingAgree(xs, D, D', n - 1);
    }
  }

  lemma {:induction false} CountSnoc(D: seq<int>, x: int, n: nat)
    requires x !in D
    ensures CountBelow(D + [x], n) == CountBelow(D, n) + (if 0 <= x < n then 1 else 0)
  {
    if n > 0 {
      CountSnoc(D, x, n - 1);
      assert (n - 1 in D + [x]) <==> (n - 1 in D || n - 1 == x);
    }
  }

  lemma {:induction false} CountEmpty(n: nat)
    ensures CountBelow([], n) == 0
  {
    if n > 0 {
      CountEmpty(n - 1);
    }
  }

  /** The k selected rows before sel[k] are exactly k rows below it. */
  lemma {:induction false} CountPrefix(sel: seq<int>, k: nat, n: nat)
    requires Increasing(sel) && k <= |sel|
    requires forall j :: 0 <= j < k ==> 0 <= sel[j] < n
    ensures CountBelow(sel[..k], n) == k
  {
    if k == 0 {
      assert sel[..k] == [];
      CountEmpty(n);
    } else {
      CountPrefix(sel, k - 1, n);
      var x, D := sel[k - 1], sel[..k - 1];
      assert sel[..k] == D + [x];
      CountSnoc(D, x, n);
    }
  }

  /** Adding row m to D changes nothing among the first m rows, and row m itself is gone. */
  lemma DeleteSnoc<T>(xs: seq<T>, D: seq<int>, m: nat)
    requires m < |xs|
    ensures Remaining(xs, D + [m], m + 1) == Remaining(xs, D, m)
  {
    var D' := D + [m];
    forall j | 0 <= j < m
      ensures j in D <==> j in D'
    {
    }
    RemainingAgree(xs, D, D', m);
    assert m in D';
    assert Remaining(xs, D', m + 1) == Remaining(xs, D', m) + [];
  }

  /** After deleting row m, past all of D, the first n rows that remain are those below m and then those above it. */
  lemma {:induction false} DeleteSplit<T>(xs: seq<T>, D: seq<int>, m: nat, n: nat)
    requires m < n <= |xs|
    requires forall i :: 0 <= i < |D| ==> D[i] < m
    ensures Remaining(xs, D + [m], n) == Remaining(xs, D, m) + xs[m + 1..n]
  {
    if n == m + 1 {
      DeleteSnoc(xs, D, m);
    } else {
      DeleteSplit(xs, D, m, n - 1);
      assert n - 1 !in D + [m];
      assert xs[m + 1..n] == xs[m + 1..n - 1] + [xs[n - 1]];
    }
  }

  /** Erasing position sel[k] - k after k deletions is deleting row sel[k]. */
  lemma DeleteStep<T>(xs: seq<T>, sel: seq<int>, k: nat)
    requires Increasing(sel) && k < |sel|
    requires forall j :: 0 <= j < |sel| ==> 0 <= sel[j] < |xs|
    ensures var S, p := Remaining(xs, sel[..k], |xs|), sel[k] - k;
      0 <= p < |S| && S[..p] + S[p + 1..] == Remaining(xs, sel[..k + 1], |xs|)
  {
    var m := sel[k];
    var D := sel[..k];
    assert sel[..k + 1] == D + [m];
    assert forall i :: 0 <= i < |D| ==> D[i] < m;
    RemainingSplit(xs, D, m, |xs|);
    DeleteSplit(xs, D, m, |xs|);
    RemainingLength(xs, D, m);
    CountPrefix(sel, k, m);
    var S := Remaining(xs, D, |xs|);
    var A := Remaining(xs, D, m);
    assert S == A + [xs[m]] + xs[m + 1..] by {
      assert xs[m..] == [xs[m]] + xs[m + 1..];
    }
    assert S[..m - k] == A;
    assert S[m - k + 1..] == xs[m + 1..];
  }

  /** Row j, not deleted, lands at j minus the number of deleted rows before it. */
  lemma {:induction false} RemainingAt<T>(xs: seq<T>, D: seq<int>, n: nat, j: nat)
    requires j < n <= |xs| && j !in D
    ensures j - CountBelow(D, j) < |Remaining(xs, D, n)|
    ensures Remaining(xs, D, n)[j - CountBelow(D, j)] == xs[j]
  {
    RemainingLength(xs, D, j);
    if n - 1 > j {
      RemainingAt(xs, D, n - 1, j);
    }
  }

  /** Every remaining state is a row not deleted, at that row's shifted place. */
  lemma {:induction false} RemainingSound<T>(xs: seq<T>, D: seq<int>, n: nat, r: nat) returns (j: nat)
    requires n <= |xs| && r < |Remaining(xs, D, n)|
    ensures j < n && j !in D && r == j - CountBelow(D, j)
    ensures Remaining(xs, D, n)[r] == xs[j]
  {
    var prev := Remaining(xs, D, n - 1);
    if r < |prev| {
      j := RemainingSound(xs, D, n - 1, r);
    } else {
      j := n - 1;
      RemainingLength(xs, D, n - 1);
    }
  }

  // ---------------------------------------------------------------------
  // Flags and tags of the selection

  predicate HasFlag(s: State, flag: bv32)
  {
    s.flags & flag != 0
  }

  /** Every selected state has the flag. */
  predicate AllFlagged(states: seq<State>, sel: seq<int>, flag: bv32)
    requires forall k :: 0 <= k < |sel| ==> 0 <= sel[k] < |states|
  {
    forall k :: 0 <= k < |sel| ==> HasFlag(states[sel[k]], flag)
  }

  /** The number of the first n selected states that have the flag (`selectCount`). */
  function FlaggedCount(states: seq<State>, sel: seq<int>, flag: bv32, n: nat): (c: nat)
    requires n <= |sel|
    requires forall k :: 0 <= k < |sel| ==> 0 <= sel[k] < |states|
    ensures c <= n
  {
    if n == 0 then 0 else FlaggedCount(states, sel, flag, n - 1) + (if HasFlag(states[sel[n - 1]], flag) then 1 else 0)
  }

  /** The count reaches the selection's size exactly when every selected state has the flag. */
  lemma {:induction false} FlaggedCountAll(states: seq<State>, sel: seq<int>, flag: bv32, n: nat)
    requires n <= |sel|
    requires forall k :: 0 <= k < |sel| ==> 0 <= sel[k] < |states|
    ensures FlaggedCount(states, sel, flag, n) == n <==> forall k :: 0 <= k < n ==> HasFlag(states[sel[k]], flag)
  {
    if n > 0 {
      FlaggedCountAll(states, sel, flag, n - 1);
    }
  }

  /** `flags |= flag` or `flags &= ~flag`: the flag's bits are on or off, the other bits keep their values. */
  function SetOrClear(flags: bv32, flag: bv32, turnOn: bool): (r: bv32)
    ensures r & !flag == flags & !flag
    ensures flag != 0 ==> (r & flag != 0 <==> turnOn)
  {
    if turnOn then flags | flag else flags & !flag
  }

  /** The state with the flag set or cleared; no other field changes. */
  function WithFlag(s: State, flag: bv32, turnOn: bool): (r: State)
    ensures r == s.(flags := r.flags)
    ensures r.flags & !flag == s.flags & !flag
  {
    s.(flags := SetOrClear(s.flags, flag, turnOn))
  }

  /**
   * A click on a flag's checkbox: the flag is set on every selected state,
   * unless all of them had it, in which case it is cleared on all of them.
   * Nothing else changes.
   */
  function FlagToggled(states: seq<State>, sel: seq<int>, flag: bv32): (r: seq<State>)
    requires forall k :: 0 <= k < |sel| ==> 0 <= sel[k] < |states|
    ensures |r| == |states|
    ensures forall j :: 0 <= j < |states| && j !in sel ==> r[j] == states[j]
    ensures forall j :: 0 <= j < |states| && j in sel ==> r[j] == WithFlag(states[j], flag, !AllFlagged(states, sel, flag))
  {
    FlagSet(states, sel, flag, !AllFlagged(states, sel, flag))
  }

  /** The states with the flag set (or cleared) on the selected ones. */
  function FlagSet(states: seq<State>, sel: seq<int>, flag: bv32, turnOn: bool): (r: seq<State>)
    ensures |r| == |states|
    ensures forall j :: 0 <= j < |states| ==> r[j] == if j in sel then WithFlag(states[j], flag, turnOn) else states[j]
  {
    seq(|states|, j requires 0 <= j < |states| => if j in sel then WithFlag(states[j], flag, turnOn) else states[j])
  }

  /** Setting or clearing a flag keeps every model and collider in range. */
  lemma FlagSetFits(states: seq<State>, sel: seq<int>, flag: bv32, turnOn: bool, modelCount: nat)
    requires forall j :: 0 <= j < |states| ==> Fits(states[j], modelCount)
    ensures forall j :: 0 <= j < |states| ==> Fits(FlagSet(states, sel, flag, turnOn)[j], modelCount)
  {
    var r := FlagSet(states, sel, flag, turnOn);
    forall j | 0 <= j < |states|
      ensures Fits(r[j], modelCount)
    {
      assert Fits(states[j], modelCount);
    }
  }

  /** A nonzero flag is on after WithFlag exactly when it was turned on. */
  lemma WithFlagHas(s: State, flag: bv32, turnOn: bool)
    requires flag != 0
    ensures HasFlag(WithFlag(s, flag, turnOn), flag) <==> turnOn
  {
    var b := SetOrClear(s.flags, flag, turnOn);
    assert WithFlag(s, flag, turnOn).flags == b;
  }

  /**
   * Clicking a checkbox of a non-empty selection flips whether the whole
   * selection has the flag: afterwards all have it exactly when before not all did.
   */
  lemma FlagToggledFlips(states: seq<State>, sel: seq<int>, flag: bv32)
    requires forall k :: 0 <= k < |sel| ==> 0 <= sel[k] < |states|
    requires flag != 0 && sel != []
    ensures AllFlagged(FlagToggled(states, sel, flag), sel, flag) <==> !AllFlagged(states, sel, flag)
  {
    var turnOn := !AllFlagged(states, sel, flag);
    var r := FlagToggled(states, sel, flag);
    forall k | 0 <= k < |sel|
      ensures HasFlag(r[sel[k]], flag) <==> turnOn
    {
      var j := sel[k];
      assert j in sel;
      WithFlagHas(states[j], flag, turnOn);
    }
    var j := sel[0];
    assert HasFlag(r[j], flag) <==> turnOn;
  }

  /** The states after the first n checkboxes of `FlagSelector`, each clicked or not. */
  function FlagsSelected(states: seq<State>, sel: seq<int>, clicked: seq<bool>, n: nat): (r: seq<State>)
    requires n <= |clicked| && n <= |FlagValues|
    requires forall k :: 0 <= k < |sel| ==> 0 <= sel[k] < |states|
    ensures |r| == |states|
  {
    if n == 0 then states
    else
      var prev := FlagsSelected(states, sel, clicked, n - 1);
      if clicked[n - 1] then FlagToggled(prev, sel, FlagValues[n - 1]) else prev
  }

  /** The tags of the selected states, in selection order. */
  function SelectedTags(states: seq<State>, sel: seq<int>): (r: seq<string>)
    requires forall k :: 0 <= k < |sel| ==> 0 <= sel[k] < |states|
    ensures |r| == |sel|
  {
    seq(|sel|, k requires 0 <= k < |sel| => states[sel[k]].tag)
  }

  /** The number of leading empty tags. */
  function LeadingEmpty(tags: seq<string>): (k: nat)
    ensures k <= |tags|
    ensures forall j :: 0 <= j < k ==> tags[j] == ""
    ensures k < |tags| ==> tags[k] != ""
  {
    if tags == [] || tags[0] != "" then 0 else 1 + LeadingEmpty(tags[1..])
  }

  /**
   * The tag the multi-selection shows: the first non-empty tag when every
   * later tag equals it, otherwise the empty tag. Empty tags before the first
   * non-empty one are skipped, empty tags after it are a mismatch.
   */
  function ShownTag(tags: seq<string>): (r: string)
    ensures r != "" ==> r in tags
    ensures r != "" ==> forall j :: 0 <= j < |tags| && tags[j] != "" ==> tags[j] == r
  {
    var k := LeadingEmpty(tags);
    if k < |tags| && forall j :: k < j < |tags| ==> tags[j] == tags[k] then tags[k] else ""
  }

  /** A common tag is shown. */
  lemma ShownTagCommon(tags: seq<string>, t: string)
    requires tags != []
    requires forall j :: 0 <= j < |tags| ==> tags[j] == t
    ensures ShownTag(tags) == t
  {
    assert tags[0] == t;
    if t != "" {
      assert LeadingEmpty(tags) == 0;
    } else {
      assert LeadingEmpty(tags) == |tags|;
    }
  }

  /** The order of an empty tag matters: {"", "a"} shows "a" but {"a", ""} shows nothing. */
  lemma ShownTagOrder()
    ensures ShownTag(["", "a"]) == "a"
    ensures ShownTag(["a", ""]) == ""
  {
    assert LeadingEmpty(["", "a"]) == 1 by {
      assert ["", "a"][1..] == ["a"];
    }
    assert ["a", ""][1] != ["a", ""][0];
  }

  // ---------------------------------------------------------------------
  // The builder

  class SceneBuilder {
    /** `m_playing`. */
    var playing: bool
    /** `m_selectedEntities`, in increasing order. */
    var selected: seq<int>
    /** The states of `m_savedStates`; the entity handles beside them are not modelled. */
    var savedStates: seq<State>
    /** `m_blinks`. */
    var blinks: seq<BlinkEntry>
    /** `m_models`. */
    var models: seq<string>
    /** `glm::length`, which the collider sizes of `RecreateEntity` use. */
    const length: Vec3 -> real

    /** The selection names rows, and every state's model and collider exist. */
    predicate Valid()
      reads this`selected, this`savedStates, this`models
    {
      Increasing(selected) && Below(selected, |savedStates|) &&
      (forall j :: 0 <= j < |savedStates| ==> Fits(savedStates[j], |models|))
    }

    constructor (length: Vec3 -> real)
      ensures Valid()
      ensures !playing && selected == [] && savedStates == [] && blinks == [] && models == []
      ensures this.length == length
    {
      playing := false;
      selected := [];
      savedStates := [];
      blinks := [];
      models := [];
      this.length := length;
    }

    /** What one of this builder's `RecreateEntity` calls builds. */
    function Built(call: Recreate): (r: Spawn)
      reads this
      requires Fits(call.state, |models|)
      ensures r.body.Some? ==> r.body.value.mass == (if call.useMass then call.state.mass else 0.0)
    {
      Spawned(call.state, models, call.useMass, call.invisible, length)
    }

    method AddModel(name: string)
      requires Valid()
      modifies this
      ensures Valid()
      ensures models == old(models) + [name]
      ensures playing == old(playing) && selected == old(selected) && savedStates == old(savedStates)
      ensures blinks == old(blinks)
    {
      models := models + [name];
    }

    /** `IsPlaying`. */
    function IsPlaying(): (r: bool)
      reads this
      ensures r <==> playing
    {
      playing
    }

    /** Toggle play mode: every row is recreated, with its mass when playing; the selection is cleared. */
    method Play() returns (calls: seq<Recreate>)
      requires Valid()
      modifies this
      ensures Valid()
      ensures playing == !old(playing) && selected == []
      ensures savedStates == old(savedStates) && blinks == old(blinks) && models == old(models)
      ensures |calls| == |savedStates|
      ensures forall i :: 0 <= i < |calls| ==> calls[i] == Recreate(i, savedStates[i], playing, false)
    {
      playing := !playing;
      var states, useMass := savedStates, playing;
      calls := [];
      var i := 0;
      while i < |states|
        invariant 0 <= i <= |states| && |calls| == i
        invariant forall k :: 0 <= k < i ==> calls[k] == Recreate(k, states[k], useMass, false)
      {
        calls := calls + [Recreate(i, states[i], useMass, false)];
        i := i + 1;
      }
      selected := [];
    }

    /** `tp -= 1h` on every blink (`Blink(_, true)`). */
    method AgeAllBlinks()
      modifies this
      ensures blinks == AgedAll(old(blinks))
      ensures playing == old(playing) && selected == old(selected) && savedStates == old(savedStates)
      ensures models == old(models)
    {
      var b := blinks;
      var i := 0;
      while i < |b|
        invariant 0 <= i <= |b| == |blinks|
        invariant b[..i] == AgedAll(blinks)[..i] && b[i..] == blinks[i..]
      {
        b := b[i := Age(b[i])];
        i := i + 1;
      }
      assert b == b[..i];
      blinks := b;
    }

    /** `tp -= 1h` on the blinks of selected rows (Delete). */
    method AgeSelectedBlinks()
      modifies this
      ensures blinks == AgedSelected(old(blinks), selected)
      ensures playing == old(playing) && selected == old(selected) && savedStates == old(savedStates)
      ensures models == old(models)
    {
      var b, sel := blinks, selected;
      var i := 0;
      while i < |b|
        invariant 0 <= i <= |b| == |blinks|
        invariant b[..i] == AgedSelected(blinks, sel)[..i] && b[i..] == blinks[i..]
      {
        if b[i].index in sel {
          b := b[i := Age(b[i])];
        }
        i := i + 1;
      }
      assert b == b[..i];
      blinks := b;
    }

    /** The toggle loop: start shown and flip once per multiple of 150 ms below `elapsed`. */
    static method ToggleShow(elapsed: Millis) returns (show: bool)
      ensures show <==> Flips(elapsed) % 2 == 0
    {
      show := true;
      var t := 0;
      ghost var k := 0;
      while t < elapsed
        invariant t == k * BlinkStep && k <= Flips(elapsed)
        invariant k < Flips(elapsed) <==> t < elapsed
        invariant show <==> k % 2 == 0
        decreases elapsed - t
      {
        show := !show;
        t := t + BlinkStep;
        k := k + 1;
      }
    }

    /**
     * `Blink(-1)`: recreate every blinking row shown or hidden, and drop the
     * entries whose row is gone or whose blink is over.
     */
    method Tick(now: Millis) returns (calls: seq<Recreate>)
      modifies this
      ensures blinks == Ticked(old(blinks), |savedStates|, now, |old(blinks)|)
      ensures calls == Blinked(old(blinks), savedStates, now, |old(blinks)|)
      ensures playing == old(playing) && selected == old(selected) && savedStates == old(savedStates)
      ensures models == old(models)
    {
      var b;
      b, calls := TickAll(blinks, savedStates, now);
      blinks := b;
    }

    /** The loop of `Blink(-1)` over the entries, erasing in place. */
    static method TickAll(b0: seq<BlinkEntry>, states: seq<State>, now: Millis) returns (b: seq<BlinkEntry>, calls: seq<Recreate>)
      ensures b == Ticked(b0, |states|, now, |b0|)
      ensures calls == Blinked(b0, states, now, |b0|)
    {
      b := b0;
      calls := [];
      var i: nat := 0;
      ghost var j: nat := 0;
      while i < |b|
        invariant TickedUpTo(b0, states, now, j, b, i, calls)
        decreases |b| - i
      {
        b, i, calls := TickStep(b0, states, now, j, b, i, calls);
        j := j + 1;
      }
    }

    /** After the first j entries: b is the kept ones, then the rest; i is where the rest starts. */
    static ghost predicate TickedUpTo(b0: seq<BlinkEntry>, states: seq<State>, now: Millis, j: nat,
                                      b: seq<BlinkEntry>, i: nat, calls: seq<Recreate>)
    {
      j <= |b0| && i == |Ticked(b0, |states|, now, j)| &&
      b == Ticked(b0, |states|, now, j) + b0[j..] &&
      calls == Blinked(b0, states, now, j)
    }

    /** One iteration of the tick loop, on entry b[i], the j-th of the original entries. */
    static method TickStep(ghost b0: seq<BlinkEntry>, states: seq<State>, now: Millis, ghost j: nat,
                           b: seq<BlinkEntry>, i: nat, calls: seq<Recreate>)
      returns (b': seq<BlinkEntry>, i': nat, calls': seq<Recreate>)
      requires TickedUpTo(b0, states, now, j, b, i, calls) && i < |b|
      ensures TickedUpTo(b0, states, now, j + 1, b', i', calls')
      ensures |b'| - i' < |b| - i
    {
      ghost var t, rest := Ticked(b0, |states|, now, j), b0[j..];
      TailFrom(b0, j);
      TickNext(b0, states, now, j);
      var drop, call := TickEntry(b[i], states, now);
      calls' := calls + call;
      if drop {
        // erase, and `i--` cancels the loop's `i++`
        EraseAt(t, rest);
        b', i' := b[..i] + b[i + 1..], i;
      } else {
        StepOver(t, rest);
        b', i' := b, i + 1;
      }
    }

    /**
     * The body of the tick loop for one entry: a row that is gone is dropped
     * without a recreation; otherwise the row is recreated shown or hidden,
     * and dropped when its blink is over.
     */
    static method TickEntry(e: BlinkEntry, states: seq<State>, now: Millis) returns (drop: bool, call: seq<Recreate>)
      ensures drop <==> !InRange(e, |states|) || Finished(e, now)
      ensures call == if InRange(e, |states|) then [Recreate(e.index, states[e.index], false, !Shown(now - e.start))] else []
    {
      var elapsed := now - e.start;
      if e.index < 0 || e.index >= |states| {
        return true, [];
      }
      var show := ToggleShow(elapsed);
      if elapsed > BlinkLength {
        show := true;
      }
      call := [Recreate(e.index, states[e.index], false, !show)];
      drop := elapsed > BlinkLength;
    }

    /** `Blink(entityId, clearOthers)`: a row starts blinking now, or with a negative id, a tick. */
    method Blink(entityId: int, clearOthers: bool, now: Millis) returns (calls: seq<Recreate>)
      modifies this
      ensures var b := if clearOthers then AgedAll(old(blinks)) else old(blinks);
        if entityId < 0 then
          blinks == Ticked(b, |savedStates|, now, |b|) && calls == Blinked(b, savedStates, now, |b|)
        else
          blinks == b + [BlinkEntry(entityId, now)] && calls == []
      ensures playing == old(playing) && selected == old(selected) && savedStates == old(savedStates)
      ensures models == old(models)
    {
      if clearOthers {
        AgeAllBlinks();
      }
      if entityId < 0 {
        calls := Tick(now);
      } else {
        blinks := blinks + [BlinkEntry(entityId, now)];
        calls := [];
      }
    }

    /** The blinks at the end of `Update`: cleared while playing, otherwise a tick. */
    method EndFrame(now: Millis) returns (calls: seq<Recreate>)
      modifies this
      ensures playing ==> blinks == [] && calls == []
      ensures !playing ==> blinks == Ticked(old(blinks), |savedStates|, now, |old(blinks)|) &&
                           calls == Blinked(old(blinks), savedStates, now, |old(blinks)|)
      ensures playing == old(playing) && selected == old(selected) && savedStates == old(savedStates)
      ensures models == old(models)
    {
      if playing {
        blinks := [];
        calls := [];
      } else {
        calls := Blink(-1, false, now);
      }
    }

    /** A click on row i of the entity list, with or without ctrl. */
    method ClickRow(i: int, ctrl: bool, now: Millis)
      requires Valid() && 0 <= i < |savedStates|
      modifies this
      ensures Valid()
      ensures selected == Clicked(old(selected), i, ctrl).selection
      ensures blinks == if Clicked(old(selected), i, ctrl).blink
                        then AgedAll(old(blinks)) + [BlinkEntry(i, now)] else old(blinks)
      ensures playing == old(playing) && savedStates == old(savedStates) && models == old(models)
    {
      var isSelected := i in selected;
      var somethingSelected := -1;
      if ctrl {
        if isSelected {
          EraseBelow(selected, i, |savedStates|);
          selected := Erase(selected, i);
        } else {
          InsertBelow(selected, i, |savedStates|);
          selected := Insert(selected, i);
          somethingSelected := i;
        }
      } else {
        if isSelected {
          if |selected| > 1 {
            selected := [i];
            somethingSelected := i;
          } else {
            selected := [];
          }
        } else {
          selected := [i];
          somethingSelected := i;
        }
      }
      if somethingSelected >= 0 {
        var _ := Blink(somethingSelected, true, now);
      }
    }

    /** The Create button: a default state, selected alone. */
    method Create()
      requires Valid()
      modifies this
      ensures Valid()
      ensures savedStates == old(savedStates) + [DefaultState]
      ensures selected == [|old(savedStates)|]
      ensures playing == old(playing) && blinks == old(blinks) && models == old(models)
    {
      savedStates := savedStates + [DefaultState];
      selected := [];
      selected := Insert(selected, |savedStates| - 1);
    }

    /**
     * The Delete button: the blinks of selected rows are aged, the selected
     * rows are erased one by one (each position shifted down by the number
     * erased before it) and the selection is cleared. `erased` is the
     * positions erased, in order.
     */
    method Delete() returns (erased: seq<int>)
      requires Valid()
      modifies this
      ensures Valid()
      ensures savedStates == Remaining(old(savedStates), old(selected), |old(savedStates)|)
      ensures |erased| == |old(selected)|
      ensures forall k :: 0 <= k < |erased| ==> erased[k] == old(selected)[k] - k
      ensures selected == [] && blinks == AgedSelected(old(blinks), old(selected))
      ensures playing == old(playing) && models == old(models)
    {
      AgeSelectedBlinks();
      var xs, sel := savedStates, selected;
      var states;
      states, erased := EraseSelected(xs, sel);
      RemainingFits(xs, sel, |models|);
      savedStates := states;
      selected := [];
    }

    /** The erase loop of Delete over the selection, in increasing order. */
    static method EraseSelected(xs: seq<State>, sel: seq<int>) returns (states: seq<State>, deletedIds: seq<int>)
      requires Increasing(sel) && Below(sel, |xs|)
      ensures states == Remaining(xs, sel, |xs|)
      ensures |deletedIds| == |sel| && forall k :: 0 <= k < |sel| ==> deletedIds[k] == sel[k] - k
    {
      states := xs;
      RemainingSplit(xs, [], 0, |xs|);
      assert xs[0..|xs|] == xs;
      deletedIds := [];
      var k := 0;
      while k < |sel|
        invariant ErasedUpTo(xs, sel, k, states, deletedIds)
      {
        states, deletedIds := EraseStep(xs, sel, k, states, deletedIds);
        k := k + 1;
      }
      assert sel[..k] == sel;
    }

    /** After the first k selected rows: the rows left, and the positions erased so far. */
    static ghost predicate ErasedUpTo(xs: seq<State>, sel: seq<int>, k: int, states: seq<State>, deletedIds: seq<int>)
    {
      0 <= k <= |sel| && |deletedIds| == k &&
      (forall m :: 0 <= m < k ==> deletedIds[m] == sel[m] - m) &&
      states == Remaining(xs, sel[..k], |xs|)
    }

    /** One iteration of the erase loop: shift row sel[k] down past the erased positions, then erase it. */
    static method EraseStep(xs: seq<State>, sel: seq<int>, k: int, states: seq<State>, deletedIds: seq<int>)
      returns (states': seq<State>, deletedIds': seq<int>)
      requires Increasing(sel) && Below(sel, |xs|) && k < |sel|
      requires ErasedUpTo(xs, sel, k, states, deletedIds)
      ensures ErasedUpTo(xs, sel, k + 1, states', deletedIds')
    {
      var i := sel[k];
      var m := 0;
      while m < |deletedIds|
        invariant 0 <= m <= k && i == sel[k] - m
      {
        if i > deletedIds[m] {
          i := i - 1;
        }
        m := m + 1;
      }
      DeleteStep(xs, sel, k);
      states' := states[..i] + states[i + 1..];
      deletedIds' := deletedIds + [i];
    }

    /** The Clone button: a copy of each selected state is appended, recreated, and the copies become the selection. */
    method Clone() returns (calls: seq<Recreate>)
      requires Valid()
      modifies this
      ensures Valid()
      ensures |savedStates| == |old(savedStates)| + |old(selected)|
      ensures savedStates[..|old(savedStates)|] == old(savedStates)
      ensures forall k :: 0 <= k < |old(selected)| ==> savedStates[|old(savedStates)| + k] == old(savedStates)[old(selected)[k]]
      ensures |selected| == |old(selected)|
      ensures forall k :: 0 <= k < |selected| ==> selected[k] == |old(savedStates)| + k
      ensures |calls| == |old(selected)|
      ensures forall k :: 0 <= k < |calls| ==> calls[k] == Recreate(|old(savedStates)| + k, savedStates[|old(savedStates)| + k], false, false)
      ensures playing == old(playing) && blinks == old(blinks) && models == old(models)
    {
      var states, newSelections;
      states, newSelections, calls := CloneSelected(savedStates, selected, |models|);
      savedStates := states;
      selected := newSelections;
    }

    /** The copy loop of Clone over the selection, each copy appended and inserted into the new selection. */
    static method CloneSelected(xs: seq<State>, sel: seq<int>, modelCount: nat)
      returns (states: seq<State>, newSelections: seq<int>, calls: seq<Recreate>)
      requires Below(sel, |xs|)
      requires forall j :: 0 <= j < |xs| ==> Fits(xs[j], modelCount)
      ensures |states| == |xs| + |sel| && states[..|xs|] == xs
      ensures forall k :: 0 <= k < |sel| ==> states[|xs| + k] == xs[sel[k]]
      ensures forall j :: 0 <= j < |states| ==> Fits(states[j], modelCount)
      ensures |newSelections| == |sel| && Increasing(newSelections)
      ensures forall k :: 0 <= k < |sel| ==> newSelections[k] == |xs| + k
      ensures |calls| == |sel|
      ensures forall k :: 0 <= k < |sel| ==> calls[k] == Recreate(|xs| + k, xs[sel[k]], false, false)
    {
      states := xs;
      newSelections := [];
      calls := [];
      var k := 0;
      while k < |sel|
        invariant 0 <= k <= |sel|
        invariant |states| == |xs| + k && states[..|xs|] == xs
        invariant forall m :: 0 <= m < k ==> states[|xs| + m] == xs[sel[m]]
        invariant forall j :: 0 <= j < |states| ==> Fits(states[j], modelCount)
        invariant |newSelections| == k && Increasing(newSelections)
        invariant forall m :: 0 <= m < k ==> newSelections[m] == |xs| + m
        invariant |calls| == k
        invariant forall m :: 0 <= m < k ==> calls[m] == Recreate(|xs| + m, xs[sel[m]], false, false)
      {
        var i := sel[k];
        var stateCopy := states[i];
        states := states + [stateCopy];
        var newId := |states| - 1;
        InsertLargest(newSelections, newId);
        newSelections := Insert(newSelections, newId);
        calls := calls + [Recreate(newId, states[newId], false, false)];
        k := k + 1;
      }
    }

    /** `selectCount` of `FlagSelector`: how many selected states have the flag. */
    method CountFlagged(flag: bv32) returns (count: nat)
      requires Valid()
      ensures count == FlaggedCount(savedStates, selected, flag, |selected|)
    {
      count := 0;
      var k := 0;
      while k < |selected|
        invariant 0 <= k <= |selected| && count == FlaggedCount(savedStates, selected, flag, k)
      {
        if HasFlag(savedStates[selected[k]], flag) {
          count := count + 1;
        }
        k := k + 1;
      }
    }

    /**
     * One flag checkbox of `FlagSelector`, shown checked when some selected
     * state has the flag; a click flips the shown value and then sets (or,
     * when all had it, clears) the flag on every selected state.
     */
    method FlagCheckbox(flag: bv32, clicked: bool)
      requires Valid()
      modifies this
      ensures Valid()
      ensures playing == old(playing) && selected == old(selected) && blinks == old(blinks)
      ensures models == old(models)
      ensures savedStates == if clicked then FlagToggled(old(savedStates), old(selected), flag) else old(savedStates)
    {
      var selectCount := CountFlagged(flag);
      var shown := selectCount > 0;
      var partial := shown && selectCount < |selected|;
      if clicked {
        shown := !shown;
        FlaggedCountAll(savedStates, selected, flag, |selected|);
        var xs, turnOn := savedStates, shown || partial;
        FlagSetFits(xs, selected, flag, turnOn, |models|);
        savedStates := ApplyFlag(xs, selected, flag, turnOn);
        if selected == [] {
          // no state is touched, whichever way the flag would go
          assert savedStates == xs == FlagToggled(xs, selected, flag);
        } else {
          assert turnOn == !AllFlagged(xs, selected, flag);
        }
      }
    }

    /** The loop over the selection that sets or clears the flag on each selected state. */
    static method ApplyFlag(xs: seq<State>, sel: seq<int>, flag: bv32, turnOn: bool) returns (states: seq<State>)
      requires Increasing(sel) && Below(sel, |xs|)
      ensures states == FlagSet(xs, sel, flag, turnOn)
    {
      states := xs;
      var k := 0;
      while k < |sel|
        invariant 0 <= k <= |sel| && |states| == |xs|
        invariant forall j :: 0 <= j < |xs| ==> states[j] == if j in sel[..k] then WithFlag(xs[j], flag, turnOn) else xs[j]
      {
        var i := sel[k];
        assert i !in sel[..k];
        assert states[i] == xs[i];
        states := states[i := states[i].(flags := SetOrClear(states[i].flags, flag, turnOn))];
        assert sel[..k + 1] == sel[..k] + [i];
        k := k + 1;
      }
      assert sel[..k] == sel;
    }

    /** `FlagSelector`: the four flag checkboxes in order; `clicked[k]` says whether the k-th was clicked. */
    method FlagSelector(clicked: seq<bool>)
      requires Valid() && |clicked| == |FlagValues|
      modifies this
      ensures Valid()
      ensures playing == old(playing) && selected == old(selected) && blinks == old(blinks)
      ensures models == old(models)
      ensures savedStates == FlagsSelected(old(savedStates), old(selected), clicked, |FlagValues|)
    {
      ghost var xs := savedStates;
      var k := 0;
      while k < |FlagValues|
        invariant 0 <= k <= |FlagValues| && Valid()
        invariant playing == old(playing) && selected == old(selected) && blinks == old(blinks)
        invariant models == old(models) && |savedStates| == |xs|
        invariant savedStates == FlagsSelected(xs, selected, clicked, k)
      {
        FlagCheckbox(FlagValues[k], clicked[k]);
        k := k + 1;
      }
    }

    /** The tag the multi-selection's Tag field shows. */
    method CommonTag() returns (multiTag: string)
      requires Valid()
      ensures multiTag == ShownTag(SelectedTags(savedStates, selected))
    {
      ghost var tags := SelectedTags(savedStates, selected);
      ghost var f := LeadingEmpty(tags);
      multiTag := "";
      var tagsEqual := true;
      var k := 0;
      while k < |selected|
        invariant 0 <= k <= |selected| && tagsEqual
        invariant k <= f ==> multiTag == ""
        invariant k > f ==> multiTag == tags[f] && forall j :: f < j < k ==> tags[j] == tags[f]
      {
        var tag := savedStates[selected[k]].tag;
        assert tag == tags[k];
        if multiTag == "" {
          multiTag := tag;
        } else if tag != multiTag {
          tagsEqual := false;
          break;
        }
        k := k + 1;
      }
      if !tagsEqual {
        multiTag := "";
      }
    }

    /** The multi-selection's Tag field was edited: every selected state gets the tag. */
    method SetTag(tag: string)
      requires Valid()
      modifies this
      ensures Valid()
      ensures |savedStates| == |old(savedStates)|
      ensures forall j :: 0 <= j < |savedStates| ==>
        savedStates[j] == if j in selected then old(savedStates)[j].(tag := tag) else old(savedStates)[j]
      ensures playing == old(playing) && selected == old(selected) && blinks == old(blinks)
      ensures models == old(models)
    {
      var xs, sel := savedStates, selected;
      var states := xs;
      var k := 0;
      while k < |sel|
        invariant 0 <= k <= |sel| && |states| == |xs|
        invariant forall j :: 0 <= j < |xs| ==>
          states[j] == if j in sel[..k] then xs[j].(tag := tag) else xs[j]
      {
        var i := sel[k];
        assert i !in sel[..k];
        states := states[i := states[i].(tag := tag)];
        assert sel[..k + 1] == sel[..k] + [i];
        k := k + 1;
      }
      assert sel[..k] == sel;
      savedStates := states;
    }

    /** `Reset`: no rows and no selection (the entities are destroyed in the registry). */
    method Reset()
      modifies this
      ensures Valid()
      ensures selected == [] && savedStates == []
      ensures playing == old(playing) && blinks == old(blinks) && models == old(models)
    {
      selected := [];
      savedStates := [];
    }

    /**
     * `Load(stateCount, states, saveable)`: reset, then append and recreate
     * each state (with its mass unless saveable); a scene that is not
     * saveable keeps no rows.
     */
    method Load(states: seq<State>, saveable: bool) returns (calls: seq<Recreate>)
      requires forall j :: 0 <= j < |states| ==> Fits(states[j], |models|)
      modifies this
      ensures Valid()
      ensures savedStates == if saveable then states else []
      ensures selected == []
      ensures |calls| == |states|
      ensures forall i :: 0 <= i < |calls| ==> calls[i] == Recreate(i, states[i], !saveable, false)
      ensures playing == old(playing) && blinks == old(blinks) && models == old(models)
    {
      Reset();
      var rows := savedStates;
      calls := [];
      var i := 0;
      while i < |states|
        invariant 0 <= i <= |states| && rows == states[..i] && |calls| == i
        invariant forall k :: 0 <= k < i ==> calls[k] == Recreate(k, states[k], !saveable, false)
      {
        rows := rows + [states[i]];
        assert rows == states[..i + 1];
        calls := calls + [Recreate(i, rows[i], !saveable, false)];
        i := i + 1;
      }
      assert rows == states;
      savedStates := rows;
      if !saveable {
        savedStates := [];
      }
    }
  }


  /** The states that remain after a deletion still fit the model list. */
  lemma RemainingFits(xs: seq<State>, D: seq<int>, modelCount: nat)
    requires forall j :: 0 <= j < |xs| ==> Fits(xs[j], modelCount)
    ensures forall r :: 0 <= r < |Remaining(xs, D, |xs|)| ==> Fits(Remaining(xs, D, |xs|)[r], modelCount)
  {
    forall r | 0 <= r < |Remaining(xs, D, |xs|)|
      ensures Fits(Remaining(xs, D, |xs|)[r], modelCount)
    {
      var j := RemainingSound(xs, D, |xs|, r);
    }
  }
}

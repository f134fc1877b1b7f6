// The key-combination mapper of src/wgleng/core/KeyMapper.h: a builder
// accumulates (input test, key) pairs and hands one mapping to its mapper on
// the first `Then`; `Update` fires, in insertion order, the action of every
// mapping whose key tests all hold.  The input state is a parameter and
// actions are opaque tokens; `Update` returns the ones it fires.

module KeyMapper {

  /** The six `Input` tests a mapping can use. */
  datatype InputTest = JustPressed | IsHeld | JustReleased | JustPressedMouse | IsHeldMouse | JustReleasedMouse

  /** One `std::pair<InputFunc, int>`. */
  datatype Key = Key(test: InputTest, code: int)

  /** A `std::function<void()>`, known only by identity. */
  type Action = nat

  datatype KeyMapping = KeyMapping(keys: seq<Key>, action: Action)

  /** The input state of one frame: what each test answers for a key code. */
  type InputState = (InputTest, int) -> bool

  /** A mapping is due when every one of its key tests holds. */
  predicate Due(m: KeyMapping, input: InputState)
  {
    forall k :: 0 <= k < |m.keys| ==> input(m.keys[k].test, m.keys[k].code)
  }

  /** The actions of the due mappings, in mapping order. */
  function Fired(ms: seq<KeyMapping>, input: InputState): (r: seq<Action>)
    ensures |r| <= |ms|
  {
    if ms == [] then []
    else Fired(ms[..|ms| - 1], input) + (if Due(ms[|ms| - 1], input) then [ms[|ms| - 1].action] else [])
  }

  /** A mapping without keys is always due, so it fires on every update. */
  lemma {:induction false} EmptyMappingAlwaysFires(ms: seq<KeyMapping>, input: InputState)
    requires forall k :: 0 <= k < |ms| ==> ms[k].keys == []
    ensures |Fired(ms, input)| == |ms|
    ensures forall k :: 0 <= k < |ms| ==> Fired(ms, input)[k] == ms[k].action
  {
    if ms != [] {
      var n := |ms| - 1;
      EmptyMappingAlwaysFires(ms[..n], input);
      assert Due(ms[n], input);
      assert Fired(ms, input) == Fired(ms[..n], input) + [ms[n].action];
    }
  }

  /** Every fired action is that of a due mapping. */
  lemma {:induction false} FiredSound(ms: seq<KeyMapping>, input: InputState, a: Action)
    requires a in Fired(ms, input)
    ensures exists k :: 0 <= k < |ms| && ms[k].action == a && Due(ms[k], input)
  {
    var n := |ms| - 1;
    if a in Fired(ms[..n], input) {
      FiredSound(ms[..n], input, a);
      var k :| 0 <= k < n && ms[..n][k].action == a && Due(ms[..n][k], input);
      assert ms[k] == ms[..n][k];
    } else {
      assert ms[n].action == a && Due(ms[n], input);
    }
  }

  /** Every due mapping fires. */
  lemma {:induction false} FiredComplete(ms: seq<KeyMapping>, input: InputState, k: nat)
    requires k < |ms| && Due(ms[k], input)
    ensures ms[k].action in Fired(ms, input)
  {
    var n := |ms| - 1;
    if k < n {
      FiredComplete(ms[..n], input, k);
      assert ms[..n][k] == ms[k];
    }
  }

  class KeyMapper {
    var mappings: seq<KeyMapping>

    constructor ()
      ensures mappings == []
    {
      mappings := [];
    }

    /**
     * Test one mapping's keys in order, stopping at the first that fails;
     * `evaluated` is how many key tests ran before the answer was known.
     */
    static method AllKeysPressed(keys: seq<Key>, input: InputState) returns (all: bool, evaluated: nat)
      ensures all <==> Due(KeyMapping(keys, 0), input)
      ensures all ==> evaluated == |keys|
      ensures !all ==> 0 < evaluated <= |keys| && !input(keys[evaluated - 1].test, keys[evaluated - 1].code) &&
                       forall k :: 0 <= k < evaluated - 1 ==> input(keys[k].test, keys[k].code)
    {
      all, evaluated := true, 0;
      while evaluated < |keys|
        invariant 0 <= evaluated <= |keys|
        invariant forall k :: 0 <= k < evaluated ==> input(keys[k].test, keys[k].code)
      {
        if !input(keys[evaluated].test, keys[evaluated].code) {
          all, evaluated := false, evaluated + 1;
          return;
        }
        evaluated := evaluated + 1;
      }
    }

    /** Update: the actions of all due mappings, in insertion order. */
    method Update(input: InputState) returns (fired: seq<Action>)
      ensures fired == Fired(mappings, input)
    {
      fired := [];
      var i := 0;
      while i < |mappings|
        invariant 0 <= i <= |mappings|
        invariant fired == Fired(mappings[..i], input)
      {
        var all, _ := AllKeysPressed(mappings[i].keys, input);
        assert mappings[..i + 1][..i] == mappings[..i];
        assert all <==> Due(mappings[i], input);
        if all {
          fired := fired + [mappings[i].action];
        }
        i := i + 1;
      }
      assert mappings[..i] == mappings;
    }

    /** AddMapping: a fresh builder bound to this mapper, with no keys yet. */
    method AddMapping() returns (b: KeyMapBuilder)
      ensures fresh(b) && b.mapper == this && b.keys == []
    {
      b := new KeyMapBuilder(this);
    }

    method Clear()
      modifies this
      ensures mappings == []
    {
      mappings := [];
    }
  }

  /** `KeyMapper::KeyMapBuilder`: the keys gathered so far and the mapper, null once used. */
  class KeyMapBuilder {
    var mapper: KeyMapper?
    var keys: seq<Key>

    constructor (mapper: KeyMapper)
      ensures this.mapper == mapper && keys == []
    {
      this.mapper, keys := mapper, [];
    }

    /**
     * Then: the first call hands the mapping to the mapper (appended last)
     * and detaches the builder; any later call returns false and adds nothing.
     */
    method Then(callback: Action) returns (ok: bool)
      modifies this, mapper
      ensures ok <==> old(mapper) != null
      ensures mapper == null && keys == old(keys)
      ensures old(mapper) != null ==> old(mapper).mappings == old(mapper.mappings) + [KeyMapping(keys, callback)]
    {
      if mapper == null {
        return false;
      }
      mapper.mappings := mapper.mappings + [KeyMapping(keys, callback)];
      mapper := null;
      return true;
    }

    /** ExpandMapping: the key goes after those added before. */
    method ExpandMapping(test: InputTest, code: int)
      modifies this
      ensures keys == old(keys) + [Key(test, code)] && mapper == old(mapper)
    {
      keys := keys + [Key(test, code)];
    }

    method PressKey(scancode: int)
      modifies this
      ensures keys == old(keys) + [Key(JustPressed, scancode)] && mapper == old(mapper)
    {
      ExpandMapping(JustPressed, scancode);
    }

    method HoldKey(scancode: int)
      modifies this
      ensures keys == old(keys) + [Key(IsHeld, scancode)] && mapper == old(mapper)
    {
      ExpandMapping(IsHeld, scancode);
    }

    method ReleaseKey(scancode: int)
      modifies this
      ensures keys == old(keys) + [Key(JustReleased, scancode)] && mapper == old(mapper)
    {
      ExpandMapping(JustReleased, scancode);
    }

    method PressMouse(button: int)
      modifies this
      ensures keys == old(keys) + [Key(JustPressedMouse, button)] && mapper == old(mapper)
    {
      ExpandMapping(JustPressedMouse, button);
    }

    method HoldMouse(button: int)
      modifies this
      ensures keys == old(keys) + [Key(IsHeldMouse, button)] && mapper == old(mapper)
    {
      ExpandMapping(IsHeldMouse, button);
    }

    method ReleaseMouse(button: int)
      modifies this
      ensures keys == old(keys) + [Key(JustReleasedMouse, button)] && mapper == old(mapper)
    {
      ExpandMapping(JustReleasedMouse, button);
    }
  }
}

// A shader program (src/wgleng/rendering/ShaderProgram.cpp): named constants
// substituted into the GLSL text before compilation, a cache of uniform
// locations, and the GL calls it issues, recorded in order.  Compilation
// results and the values GL returns for queries are inputs.

module ShaderProgram {
  import opened Common

  // ------------------------------------------------------------- constants

  /** The placeholder a constant named `name` replaces: `<<name>>`. */
  function ConstantKey(name: string): (k: string)
    ensures |k| == |name| + 4 && k[..2] == "<<" && k[|k| - 2..] == ">>"
  {
    "<<" + name + ">>"
  }

  /** Two constant names have the same placeholder only if they are the same name. */
  lemma ConstantKeyInjective(a: string, b: string)
    requires ConstantKey(a) == ConstantKey(b)
    ensures a == b
  {
    assert a == ConstantKey(a)[2..|a| + 2];
    assert b == ConstantKey(b)[2..|b| + 2];
  }

  // ----------------------------------------------------------- replacement

  /** `pat` occurs in s at index i. */
  predicate OccursAt(s: string, pat: string, i: nat)
  {
    i + |pat| <= |s| && s[i..i + |pat|] == pat
  }

  /** `s.find(pat, pos)`: the first occurrence of pat at or after pos. */
  function Find(s: string, pat: string, pos: nat): (r: Option<nat>)
    ensures r.Some? ==> pos <= r.value && OccursAt(s, pat, r.value)
    ensures r.Some? ==> forall j :: pos <= j < r.value ==> !OccursAt(s, pat, j)
    ensures r.None? ==> forall j :: pos <= j ==> !OccursAt(s, pat, j)
    decreases |s| - pos
  {
    if pos + |pat| > |s| then None
    else if OccursAt(s, pat, pos) then Some(pos)
    else Find(s, pat, pos + 1)
  }

  /**
   * Left-to-right, non-overlapping replacement of `n` by `v`, defined on the
   * original text only: inserted values are never searched again.
   */
  function Subst(s: string, n: string, v: string): string
    requires |n| > 0
    decreases |s|
  {
    if |n| <= |s| && s[..|n|] == n then v + Subst(s[|n|..], n, v)
    else if s == [] then []
    else [s[0]] + Subst(s[1..], n, v)
  }

  /** Where the search from pos finds the next occurrence, the substitution of the rest splits there. */
  lemma SubstFind(r: string, n: string, v: string, pos: nat)
    requires |n| > 0 && pos <= |r|
    ensures Find(r, n, pos).None? ==> Subst(r[pos..], n, v) == r[pos..]
    ensures Find(r, n, pos).Some? ==>
      var p := Find(r, n, pos).value;
      p + |n| <= |r| && Subst(r[pos..], n, v) == r[pos..p] + v + Subst(r[p + |n|..], n, v)
    decreases |r| - pos
  {
    var found := Find(r, n, pos);
    if found.Some? {
      SubstSplit(r, n, v, pos, found.value);
    } else {
      var u := r[pos..];
      forall i | 0 <= i <= |u| ensures !OccursAt(u, n, i) {
        assert !OccursAt(r, n, pos + i);
        if i + |n| <= |u| {
          assert u[i..i + |n|] == r[pos + i..pos + i + |n|];
        }
      }
      SubstNoOccurrence(u, n, v);
    }
  }

  /** Up to the first occurrence at p the text is kept; the occurrence is replaced. */
  lemma {:induction false} SubstSplit(r: string, n: string, v: string, pos: nat, p: nat)
    requires |n| > 0 && pos <= p && OccursAt(r, n, p)
    requires forall j :: pos <= j < p ==> !OccursAt(r, n, j)
    ensures Subst(r[pos..], n, v) == r[pos..p] + v + Subst(r[p + |n|..], n, v)
    decreases p - pos
  {
    var u := r[pos..];
    if pos == p {
      assert u[..|n|] == r[p..p + |n|];
      assert u[|n|..] == r[p + |n|..];
      assert r[pos..p] == [];
    } else {
      var t := Subst(r[p + |n|..], n, v);
      assert !OccursAt(r, n, pos);
      assert Subst(u, n, v) == [r[pos]] + Subst(r[pos + 1..], n, v) by {
        assert u[..|n|] == r[pos..pos + |n|];
        assert u[1..] == r[pos + 1..];
      }
      SubstSplit(r, n, v, pos + 1, p);
      ConsSlice(r, pos, p, v, t);
    }
  }

  lemma ConsSlice(r: string, pos: nat, p: nat, v: string, t: string)
    requires pos < p <= |r|
    ensures [r[pos]] + (r[pos + 1..p] + v + t) == r[pos..p] + v + t
  {
    assert r[pos..p] == [r[pos]] + r[pos + 1..p];
  }

  /** A text shorter than the placeholder is left as it is. */
  lemma {:induction false} SubstShort(u: string, n: string, v: string)
    requires 0 < |n| && |u| < |n|
    ensures Subst(u, n, v) == u
    decreases |u|
  {
    if u != [] {
      SubstShort(u[1..], n, v);
      assert u == [u[0]] + u[1..];
    }
  }

  /** A text without any occurrence of the placeholder is left as it is. */
  lemma {:induction false} SubstNoOccurrence(s: string, n: string, v: string)
    requires |n| > 0
    requires forall i :: 0 <= i <= |s| ==> !OccursAt(s, n, i)
    ensures Subst(s, n, v) == s
    decreases |s|
  {
    if s != [] {
      assert !OccursAt(s, n, 0);
      assert |n| <= |s| ==> s[..|n|] == s[0..|n|];
      forall i | 0 <= i <= |s[1..]| ensures !OccursAt(s[1..], n, i) {
        assert !OccursAt(s, n, i + 1);
        if i + |n| <= |s[1..]| {
          assert s[1..][i..i + |n|] == s[i + 1..i + 1 + |n|];
        }
      }
      SubstNoOccurrence(s[1..], n, v);
      assert s == [s[0]] + s[1..];
    }
  }

  /** A value that contains its own placeholder is inserted once and not expanded again. */
  lemma SubstNotReexpanded(n: string, v: string)
    requires |n| > 0
    ensures Subst(n, n, v) == v
  {
    assert n[..|n|] == n;
    assert n[|n|..] == [];
  }

  /**
   * The find-and-replace loop of CreateShader (lines 26-30). The search
   * resumes after the inserted value, and it ends because the placeholder is
   * not empty; the result is the left-to-right substitution of the original.
   */
  method ReplaceAll(source: string, name: string, value: string) returns (src: string)
    requires |name| > 0
    ensures src == Subst(source, name, value)
  {
    src := source;
    var pos: nat := 0;
    var found := Find(src, name, pos);
    while found.Some?
      invariant pos <= |src|
      invariant found == Find(src, name, pos)
      invariant src[..pos] + Subst(src[pos..], name, value) == Subst(source, name, value)
      decreases |src| - pos
    {
      var p := found.value;
      ReplaceStep(src, name, value, pos, p);
      src := src[..p] + value + src[p + |name|..];
      pos := p + |value|;
      found := Find(src, name, pos);
    }
    SubstFind(src, name, value, pos);
    assert src[..pos] + src[pos..] == src;
  }

  /** One round of the loop keeps the text before the search position plus the substitution of the rest. */
  lemma ReplaceStep(r: string, n: string, v: string, pos: nat, p: nat)
    requires |n| > 0 && pos <= p && OccursAt(r, n, p)
    requires forall j :: pos <= j < p ==> !OccursAt(r, n, j)
    ensures var r' := r[..p] + v + r[p + |n|..];
      p + |v| <= |r'| && |r'| - (p + |v|) < |r| - pos &&
      r'[..p + |v|] + Subst(r'[p + |v|..], n, v) == r[..pos] + Subst(r[pos..], n, v)
  {
    SubstSplit(r, n, v, pos, p);
    Splice(r, p, |n|, v);
    PrefixJoin(r, pos, p, v, Subst(r[p + |n|..], n, v));
  }

  lemma PrefixJoin(r: string, pos: nat, p: nat, v: string, t: string)
    requires pos <= p <= |r|
    ensures r[..p] + v + t == r[..pos] + (r[pos..p] + v + t)
  {
    assert r[..p] == r[..pos] + r[pos..p];
  }

  /** The two halves of a text with r[p..p+m] replaced by v. */
  lemma Splice(r: string, p: nat, m: nat, v: string)
    requires p + m <= |r|
    ensures var r' := r[..p] + v + r[p + m..];
      |r'| == |r| - m + |v| && r'[..p + |v|] == r[..p] + v && r'[p + |v|..] == r[p + m..]
  {
  }

  /** All constants substituted one after the other, in the map's iteration order `keys`. */
  function SubstAll(s: string, keys: seq<string>, constants: map<string, string>): string
    requires forall k :: k in keys ==> k in constants && |k| > 0
    decreases |keys|
  {
    if keys == [] then s
    else
      var k := keys[|keys| - 1];
      Subst(SubstAll(s, keys[..|keys| - 1], constants), k, constants[k])
  }

  /** A key order lists every key of the map exactly once. */
  ghost predicate Enumerates(keys: seq<string>, constants: map<string, string>)
  {
    (forall i, j :: 0 <= i < j < |keys| ==> keys[i] != keys[j]) &&
    (forall k :: k in constants <==> k in keys)
  }

  /** The shader text without placeholders of any constant is compiled as written. */
  lemma {:induction false} SubstAllNoOccurrence(s: string, keys: seq<string>, constants: map<string, string>)
    requires forall k :: k in keys ==> k in constants && |k| > 0
    requires forall k, i :: k in keys && 0 <= i <= |s| ==> !OccursAt(s, k, i)
    ensures SubstAll(s, keys, constants) == s
    decreases |keys|
  {
    if keys != [] {
      var k := keys[|keys| - 1];
      SubstAllNoOccurrence(s, keys[..|keys| - 1], constants);
      SubstNoOccurrence(s, k, constants[k]);
    }
  }

  /**
   * CreateShader before compiling (lines 24-31): every constant replaced in the
   * text, in the map's iteration order `keys`.
   */
  method PrepareSource(source: string, keys: seq<string>, constants: map<string, string>) returns (src: string)
    requires forall k :: k in keys ==> k in constants && |k| > 0
    ensures src == SubstAll(source, keys, constants)
  {
    src := source;
    var i := 0;
    while i < |keys|
      invariant 0 <= i <= |keys|
      invariant src == SubstAll(source, keys[..i], constants)
    {
      var name := keys[i];
      assert keys[..i + 1][..i] == keys[..i];
      src := ReplaceAll(src, name, constants[name]);
      i := i + 1;
    }
    assert keys[..i] == keys;
  }

  // ---------------------------------------------------------------- class

  datatype Stage = Vertex | Fragment

  /** The GL calls a program issues. */
  datatype GlCall =
    | DeleteProgram(program: nat)
    | CreateProgram(program: nat)
    | CompileAndAttach(program: nat, stage: Stage, source: string)
    | LinkProgram(program: nat)
    | UseProgram(program: nat)
    | UniformBlockBinding(program: nat, blockIndex: nat, bindingIndex: nat)
    | GetUniformLocation(program: nat, name: string)
    | Uniform1i(location: int, value: nat)
    | ActiveTexture(unit: nat)
    | BindTexture(target: nat, texture: nat)

  /** GL_INVALID_INDEX. */
  const InvalidIndex: nat := 0xFFFF_FFFF

  /** The names whose location was queried, in query order. */
  function Queries(calls: seq<GlCall>): seq<string>
    decreases |calls|
  {
    if calls == [] then []
    else
      var c := calls[|calls| - 1];
      Queries(calls[..|calls| - 1]) + (if c.GetUniformLocation? then [c.name] else [])
  }

  lemma {:induction false} QueriesAppend(calls: seq<GlCall>, more: seq<GlCall>)
    requires forall c :: c in more ==> !c.GetUniformLocation?
    ensures Queries(calls + more) == Queries(calls)
    decreases |more|
  {
    if more == [] {
      assert calls + more == calls;
    } else {
      assert more[|more| - 1] in more;
      assert (calls + more)[..|calls + more| - 1] == calls + more[..|more| - 1];
      QueriesAppend(calls, more[..|more| - 1]);
    }
  }

  /** The source a stage compiles, when the stage is given: every constant substituted. */
  function Prepared(source: Option<string>, keys: seq<string>, constants: map<string, string>): (r: Option<string>)
    requires forall k :: k in keys ==> k in constants && |k| > 0
    ensures r.Some? <==> source.Some?
    ensures source.Some? ==> r.value == SubstAll(source.value, keys, constants)
  {
    if source.Some? then Some(SubstAll(source.value, keys, constants)) else None
  }

  /**
   * The calls of one Load: the delete of a previous program, the create,
   * one compile-and-attach per prepared stage, and the link.
   */
  function LoadCalls(oldProgram: nat, newProgram: nat, vs: Option<string>, fs: Option<string>): (r: seq<GlCall>)
    ensures forall c :: c in r ==> !c.GetUniformLocation?
    ensures |r| == (if oldProgram != 0 then 1 else 0) + 2 + (if vs.Some? then 1 else 0) + (if fs.Some? then 1 else 0)
    ensures r[|r| - 1] == LinkProgram(newProgram)
    ensures (oldProgram != 0) <==> r[0] == DeleteProgram(oldProgram)
  {
    (if oldProgram != 0 then [DeleteProgram(oldProgram)] else [])
    + [CreateProgram(newProgram)]
    + (if vs.Some? then [CompileAndAttach(newProgram, Vertex, vs.value)] else [])
    + (if fs.Some? then [CompileAndAttach(newProgram, Fragment, fs.value)] else [])
    + [LinkProgram(newProgram)]
  }

  class ShaderProgram {
    const shaderName: string
    /** `m_program`, 0 before the first Load. */
    var program: nat
    /** `m_uniformLocations`. */
    var uniformLocations: map<string, int>
    /** `m_shaderConstans`, keyed by placeholder. */
    var constants: map<string, string>
    var calls: seq<GlCall>

    /**
     * Every constant key is a placeholder, hence at least 4 characters long,
     * and the location of each name was queried once: exactly the cached
     * names, each one time.
     */
    ghost predicate Valid()
      reads this
    {
      (forall k :: k in constants ==> |k| >= 4) &&
      (forall i, j :: 0 <= i < j < |Queries(calls)| ==> Queries(calls)[i] != Queries(calls)[j]) &&
      (forall n :: n in uniformLocations <==> n in Queries(calls))
    }

    constructor (shaderName: string)
      ensures Valid()
      ensures this.shaderName == shaderName && program == 0
      ensures uniformLocations == map[] && constants == map[] && calls == []
    {
      this.shaderName := shaderName;
      program := 0;
      uniformLocations := map[];
      constants := map[];
      calls := [];
    }

    /** Records calls that query no location; the cache stays in step with the queries. */
    method Issue(more: seq<GlCall>)
      requires Valid() && forall c :: c in more ==> !c.GetUniformLocation?
      modifies this
      ensures Valid() && calls == old(calls) + more
      ensures program == old(program) && constants == old(constants) && uniformLocations == old(uniformLocations)
    {
      QueriesAppend(calls, more);
      calls := calls + more;
    }

    /** SetConstant: stores the value under the placeholder of the name; the last write wins. */
    method SetConstant(name: string, value: string)
      requires Valid()
      modifies this
      ensures Valid()
      ensures constants == old(constants)[ConstantKey(name) := value]
      ensures program == old(program) && uniformLocations == old(uniformLocations) && calls == old(calls)
    {
      constants := constants[ConstantKey(name) := value];
    }

    /**
     * Load: delete the previous program if there is one, create a new one
     * (GL returns `newProgram`), compile the stages whose source is given,
     * and link.
     */
    method Load(vertexSource: Option<string>, fragmentSource: Option<string>, keys: seq<string>, newProgram: nat)
      requires Valid() && Enumerates(keys, constants)
      modifies this
      ensures Valid()
      ensures program == newProgram
      ensures constants == old(constants) && uniformLocations == old(uniformLocations)
      ensures calls == old(calls) + LoadCalls(old(program), newProgram,
        Prepared(vertexSource, keys, old(constants)), Prepared(fragmentSource, keys, old(constants)))
    {
      var vs, fs := None, None;
      if vertexSource.Some? {
        var src := PrepareSource(vertexSource.value, keys, constants);
        vs := Some(src);
      }
      if fragmentSource.Some? {
        var src := PrepareSource(fragmentSource.value, keys, constants);
        fs := Some(src);
      }
      var deleted := if program != 0 then [DeleteProgram(program)] else [];
      var vertex := if vs.Some? then [CompileAndAttach(newProgram, Vertex, vs.value)] else [];
      var fragment := if fs.Some? then [CompileAndAttach(newProgram, Fragment, fs.value)] else [];
      var issued := deleted + [CreateProgram(newProgram)] + vertex + fragment + [LinkProgram(newProgram)];
      assert issued == LoadCalls(program, newProgram, vs, fs);
      Issue(issued);
      program := newProgram;
    }

    /** Use: binds the program. */
    method Use()
      requires Valid()
      modifies this
      ensures Valid()
      ensures calls == old(calls) + [UseProgram(program)]
      ensures program == old(program) && constants == old(constants) && uniformLocations == old(uniformLocations)
    {
      Issue([UseProgram(program)]);
    }

    /**
     * AddUniformBufferBinding: binds the named block (GL reports its index as
     * `blockIndex`) to the binding index, and does nothing for an unknown block.
     */
    method AddUniformBufferBinding(name: string, bindingIndex: nat, blockIndex: nat)
      requires Valid()
      modifies this
      ensures Valid()
      ensures calls == old(calls) + (if blockIndex == InvalidIndex then [] else [UniformBlockBinding(program, blockIndex, bindingIndex)])
      ensures program == old(program) && constants == old(constants) && uniformLocations == old(uniformLocations)
    {
      if blockIndex == InvalidIndex {
        return;
      }
      Issue([UniformBlockBinding(program, blockIndex, bindingIndex)]);
    }

    /**
     * SetTexture: the uniform's location comes from the cache, or from one
     * GL query (answered by `locationOf`) whose result is cached; then the
     * sampler is set to the texture unit and the texture bound there.
     */
    method SetTexture(name: string, target: nat, index: nat, texture: nat, locationOf: (nat, string) -> int)
      requires Valid()
      modifies this
      ensures Valid()
      ensures name in uniformLocations
      ensures name in old(uniformLocations) ==> uniformLocations == old(uniformLocations)
      ensures name !in old(uniformLocations) ==> uniformLocations == old(uniformLocations)[name := locationOf(program, name)]
      ensures calls == old(calls)
        + (if name in old(uniformLocations) then [] else [GetUniformLocation(program, name)])
        + [Uniform1i(uniformLocations[name], index), ActiveTexture(index), BindTexture(target, texture)]
      ensures program == old(program) && constants == old(constants)
    {
      var location: int;
      if name in uniformLocations {
        location := uniformLocations[name];
      } else {
        location := locationOf(program, name);
        var q := [GetUniformLocation(program, name)];
        assert Queries(calls + q) == Queries(calls) + [name] by {
          assert (calls + q)[..|calls + q| - 1] == calls;
        }
        calls := calls + q;
        uniformLocations := uniformLocations[name := location];
      }
      var rest := [Uniform1i(location, index), ActiveTexture(index), BindTexture(target, texture)];
      QueriesAppend(calls, rest);
      calls := calls + rest;
    }
  }
}

// The debug line drawer (src/wgleng/rendering/Debug.cpp): a buffer of line
// vertices, each tagged with a highlight id found or registered in the
// highlight table, drawn and emptied once per frame while debug drawing is
// enabled.  GL names are inputs and GL calls are recorded as events; the
// Bullet debug drawer keeps only its mode here.

module DebugDraw {
  import opened Common
  import opened Glm
  import H = Highlights

  /** `DebugDraw::vert`: a position and the highlight id of its line. */
  datatype LineVert = LineVert(position: Vec3, highlightId: Byte)

  /** What Draw hands to GL: the vertex upload and the `GL_LINES` draw of that many vertices. */
  datatype DebugGl = Upload(vertices: seq<LineVert>) | DrawLines(count: nat)

  /** `btIDebugDraw::DBG_NoDebug` and `DBG_DrawWireframe`. */
  const DbgNoDebug: int := 0
  const DbgDrawWireframe: int := 1

  /** `DrawLine`'s colour tolerance. */
  const LineEpsilon: real := 0.02

  /** The vertices come in pairs, and both ends of a line carry the same highlight id. */
  predicate Paired(vs: seq<LineVert>)
  {
    |vs| % 2 == 0 && forall k :: 0 <= k < |vs| / 2 ==> vs[2 * k].highlightId == vs[2 * k + 1].highlightId
  }

  /** The first slot of the table within epsilon of the colour, if any. */
  function Closest(colors: seq<Vec3>, color: Vec3, epsilon: real): (r: Option<nat>)
    ensures r.Some? ==> r.value < |colors| && H.Near(colors[r.value], color, epsilon) &&
                        forall j :: 0 <= j < r.value ==> !H.Near(colors[j], color, epsilon)
    ensures r.None? ==> forall j :: 0 <= j < |colors| ==> !H.Near(colors[j], color, epsilon)
  {
    if colors == [] then None
    else
      var r := Closest(colors[..|colors| - 1], color, epsilon);
      if r.Some? then r
      else if H.Near(colors[|colors| - 1], color, epsilon) then Some(|colors| - 1)
      else None
  }

  /**
   * The id a line of this colour gets and the table after it: the closest
   * registered colour, or a new unnamed slot (which is 0 when the table is full).
   */
  function LineHighlight(t: H.Table, color: Vec3): (H.Table, nat)
  {
    var c := Closest(t.colors, color, LineEpsilon);
    if c.Some? then (t, c.value) else H.AddUnnamed(t, color)
  }

  /** Appending a line of two vertices with one id keeps the buffer paired. */
  lemma PairedSnoc(vs: seq<LineVert>, a: LineVert, b: LineVert)
    requires Paired(vs) && a.highlightId == b.highlightId
    ensures Paired(vs + [a, b])
  {
    var ws := vs + [a, b];
    forall k | 0 <= k < |ws| / 2 ensures ws[2 * k].highlightId == ws[2 * k + 1].highlightId {
      if k < |vs| / 2 {
        assert ws[2 * k] == vs[2 * k] && ws[2 * k + 1] == vs[2 * k + 1];
      }
    }
  }

  /** A line reuses a colour within 0.02 and otherwise registers one; the id always names a slot of the table after it. */
  lemma LineHighlightFacts(t: H.Table, color: Vec3)
    requires H.TableValid(t)
    ensures var (r, id) := LineHighlight(t, color);
      H.TableValid(r) && id < H.MaxHighlights &&
      ((exists i :: 0 <= i < |t.colors| && H.Near(t.colors[i], color, LineEpsilon)) ==>
         r == t && H.Near(t.colors[id], color, LineEpsilon)) &&
      ((forall i :: 0 <= i < |t.colors| ==> !H.Near(t.colors[i], color, LineEpsilon)) ==>
         (r, id) == H.AddUnnamed(t, color))
  {
    var c := Closest(t.colors, color, LineEpsilon);
    H.AddsKeepValid(t, "", color);
  }

  class DebugDraw {
    /** `m_vao` and `m_vbo`: 0 while not initialised. */
    var vao: nat
    var vbo: nat
    var enabled: bool
    var vertices: seq<LineVert>
    /** The mode set on the Bullet debug drawer. */
    var debugMode: int
    var gl: seq<DebugGl>
    const highlights: H.Highlights

    ghost predicate Valid()
      reads this, highlights
    {
      highlights.Valid() && Paired(vertices)
    }

    constructor (highlights: H.Highlights)
      requires highlights.Valid()
      ensures Valid() && this.highlights == highlights
      ensures vao == 0 && vbo == 0 && !enabled && vertices == [] && debugMode == DbgNoDebug && gl == []
    {
      this.highlights := highlights;
      vao, vbo, enabled, vertices, debugMode, gl := 0, 0, false, [], DbgNoDebug, [];
    }

    /** Init (lines 28-39): nothing when already initialised; otherwise take the generated names. */
    method Init(newVao: nat, newVbo: nat)
      modifies this
      ensures old(vao) != 0 ==> vao == old(vao) && vbo == old(vbo)
      ensures old(vao) == 0 ==> vao == newVao && vbo == newVbo
      ensures enabled == old(enabled) && vertices == old(vertices) && debugMode == old(debugMode) && gl == old(gl)
    {
      if vao != 0 {
        return;
      }
      vao := newVao;
      vbo := newVbo;
    }

    /** Deinit (lines 40-46): nothing when not initialised; otherwise both names become 0. */
    method Deinit()
      modifies this
      ensures old(vao) == 0 ==> vao == 0 && vbo == old(vbo)
      ensures old(vao) != 0 ==> vao == 0 && vbo == 0
      ensures enabled == old(enabled) && vertices == old(vertices) && debugMode == old(debugMode) && gl == old(gl)
    {
      if vao == 0 {
        return;
      }
      vao := 0;
      vbo := 0;
    }

    /** Clear (lines 47-49). */
    method Clear()
      requires Valid()
      modifies this
      ensures Valid() && vertices == []
      ensures vao == old(vao) && vbo == old(vbo) && enabled == old(enabled) && debugMode == old(debugMode) && gl == old(gl)
    {
      vertices := [];
    }

    /** Draw (lines 50-59): when enabled and non-empty, upload, draw as lines and empty the buffer. */
    method Draw()
      requires Valid()
      modifies this
      ensures Valid()
      ensures !old(enabled) || old(vertices) == [] ==> vertices == old(vertices) && gl == old(gl)
      ensures old(enabled) && old(vertices) != [] ==>
        vertices == [] && gl == old(gl) + [Upload(old(vertices)), DrawLines(|old(vertices)|)]
      ensures vao == old(vao) && vbo == old(vbo) && enabled == old(enabled) && debugMode == old(debugMode)
    {
      if !enabled {
        return;
      }
      if vertices == [] {
        return;
      }
      gl := gl + [Upload(vertices), DrawLines(|vertices|)];
      vertices := [];
    }

    /**
     * DrawLine (lines 60-68): when enabled, find or register the colour's
     * highlight and append the two ends with that id; disabled, nothing changes.
     */
    method DrawLine(from: Vec3, to: Vec3, color: Vec3)
      requires Valid()
      modifies this, highlights
      ensures Valid()
      ensures !old(enabled) ==> vertices == old(vertices) && highlights.State() == old(highlights.State())
      ensures old(enabled) ==>
        var (t, id) := LineHighlight(old(highlights.State()), color);
        highlights.State() == t && vertices == old(vertices) + [LineVert(from, id), LineVert(to, id)]
      ensures vao == old(vao) && vbo == old(vbo) && enabled == old(enabled) && debugMode == old(debugMode) && gl == old(gl)
    {
      if !enabled {
        return;
      }
      var found, hl := highlights.GetClosestHighlightId(color, LineEpsilon, 0);
      assert found <==> Closest(highlights.colors, color, LineEpsilon).Some?;
      if !found {
        hl := highlights.AddHighlightUnnamed(color);
      } else {
        assert Closest(highlights.colors, color, LineEpsilon) == Some(hl as nat);
      }
      PairedSnoc(vertices, LineVert(from, hl), LineVert(to, hl));
      vertices := vertices + [LineVert(from, hl), LineVert(to, hl)];
    }

    /** Enable (lines 82-85): wireframe debug mode and the flag set. */
    method Enable()
      modifies this
      ensures enabled && debugMode == DbgDrawWireframe
      ensures vao == old(vao) && vbo == old(vbo) && vertices == old(vertices) && gl == old(gl)
    {
      debugMode := DbgDrawWireframe;
      enabled := true;
    }

    /** Disable (lines 86-90): no debug mode, the flag cleared and the buffer emptied. */
    method Disable()
      modifies this
      ensures !enabled && debugMode == DbgNoDebug && vertices == []
      ensures vao == old(vao) && vbo == old(vbo) && gl == old(gl)
    {
      debugMode := DbgNoDebug;
      enabled := false;
      vertices := [];
    }
  }
}

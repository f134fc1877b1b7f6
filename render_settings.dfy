// Renderer settings (Renderer.h:14-29, Renderer.cpp:94-259, 325-360): the
// presets, the shader-type bitmask SetSettings computes, the shadow-map
// presets it installs, and which programs ReloadShaders rebuilds with which
// compile-time constants.

module RenderSettings {

  datatype FxaaPreset = FxaaOff | FxaaLow | FxaaHigh
  datatype ShadowPreset = ShadowsOff | ShadowsLow | ShadowsMedium | ShadowsHigh
  datatype OutlinePreset = OutlinesOff | OutlinesOn

  datatype Resolution = Resolution(automatic: bool, width: int, height: int)

  /** `RendererSettings`. */
  datatype Settings = Settings(resolution: Resolution, fxaa: FxaaPreset, shadows: ShadowPreset, outlines: OutlinePreset)

  /** The default-constructed settings. */
  const DefaultSettings: Settings := Settings(Resolution(true, 1920, 1080), FxaaHigh, ShadowsMedium, OutlinesOn)

  // ------------------------------------------------------- shader types

  /** `Renderer::ShaderType`, a 64-bit mask. */
  type ShaderMask = bv64

  const NoShaders: ShaderMask := 0
  /** `~0U`: the complement of a 32-bit zero, so only the low 32 bits. */
  const AllShaders: ShaderMask := 0xFFFF_FFFF
  const DebugShader: ShaderMask := 1
  const MeshShader: ShaderMask := 2
  const LightingShader: ShaderMask := 4
  const CsmShader: ShaderMask := 8
  const TextShader: ShaderMask := 16
  const FxaaShader: ShaderMask := 32

  /** The programs ReloadShaders can rebuild, in the order it rebuilds them. */
  datatype ProgramKind = MeshProgram | LightingProgram | CsmPrograms | TextProgram | FxaaProgram | DebugProgram

  function KindBit(k: ProgramKind): ShaderMask
  {
    match k
    case MeshProgram => MeshShader
    case LightingProgram => LightingShader
    case CsmPrograms => CsmShader
    case TextProgram => TextShader
    case FxaaProgram => FxaaShader
    case DebugProgram => DebugShader
  }

  predicate Selects(mask: ShaderMask, k: ProgramKind) { mask & KindBit(k) != 0 }

  /** ALL selects every program, NONE selects none. */
  lemma AllSelectsEverything(k: ProgramKind)
    ensures Selects(AllShaders, k)
    ensures !Selects(NoShaders, k)
  {
  }

  // --------------------------------------------------------- SetSettings

  /** What SetSettings asks ReloadShaders to rebuild (lines 326-358). */
  function ReloadMask(cur: Settings, s: Settings, force: bool): ShaderMask
  {
    if force then AllShaders
    else
      (if cur.fxaa != s.fxaa then FxaaShader else NoShaders) |
      (if cur.shadows != s.shadows then LightingShader | CsmShader else NoShaders) |
      (if cur.outlines != s.outlines then LightingShader else NoShaders)
  }

  /**
   * Forcing reloads everything; otherwise FXAA is rebuilt iff the FXAA preset
   * changed, the cascade programs iff the shadow preset changed, lighting iff
   * shadows or outlines changed, and the other programs never; with no
   * change of these three the mask is NONE.
   */
  lemma ReloadMaskFacts(cur: Settings, s: Settings, force: bool)
    ensures force ==> ReloadMask(cur, s, force) == AllShaders
    ensures !force ==> var m := ReloadMask(cur, s, force);
      (Selects(m, FxaaProgram) <==> cur.fxaa != s.fxaa) &&
      (Selects(m, CsmPrograms) <==> cur.shadows != s.shadows) &&
      (Selects(m, LightingProgram) <==> cur.shadows != s.shadows || cur.outlines != s.outlines) &&
      !Selects(m, MeshProgram) && !Selects(m, TextProgram) && !Selects(m, DebugProgram) &&
      (m == NoShaders <==> cur.fxaa == s.fxaa && cur.shadows == s.shadows && cur.outlines == s.outlines)
  {
  }

  /**
   * The stored settings after SetSettings: the resolution record is copied
   * only when forced or when width or height differ; each preset is copied
   * when forced or different, which leaves it equal to the new one either way.
   */
  function Applied(cur: Settings, s: Settings, force: bool): (r: Settings)
    ensures r.fxaa == s.fxaa && r.shadows == s.shadows && r.outlines == s.outlines
    ensures r.resolution.width == s.resolution.width && r.resolution.height == s.resolution.height
    ensures r.resolution.automatic ==
      if force || cur.resolution.width != s.resolution.width || cur.resolution.height != s.resolution.height
      then s.resolution.automatic else cur.resolution.automatic
  {
    var resolution :=
      if force || cur.resolution.width != s.resolution.width || cur.resolution.height != s.resolution.height
      then s.resolution else cur.resolution;
    var fxaa := if force || cur.fxaa != s.fxaa then s.fxaa else cur.fxaa;
    var shadows := if force || cur.shadows != s.shadows then s.shadows else cur.shadows;
    var outlines := if force || cur.outlines != s.outlines then s.outlines else cur.outlines;
    Settings(resolution, fxaa, shadows, outlines)
  }

  /**
   * A change of the `automatic` flag alone is not stored: the resolution
   * record is only copied when its size differs.
   */
  lemma AutomaticAloneNotStored(cur: Settings)
    ensures var s := cur.(resolution := cur.resolution.(automatic := !cur.resolution.automatic));
      Applied(cur, s, false) == cur && ReloadMask(cur, s, false) == NoShaders
  {
  }

  /** Applying the stored settings again without force changes nothing and reloads nothing. */
  lemma ReapplyIsNoop(cur: Settings)
    ensures Applied(cur, cur, false) == cur && ReloadMask(cur, cur, false) == NoShaders
  {
  }

  // ------------------------------------------------------ shadow presets

  /** `m_maxCSMFrustums`. */
  const MaxCsmFrustums: nat := 4

  /** The shadow-map size and cascade splits installed for a preset (lines 340-351). */
  function ShadowMapPreset(p: ShadowPreset): (r: (nat, seq<real>))
    ensures 1 <= |r.1| <= MaxCsmFrustums
    ensures forall i, j :: 0 <= i < j < |r.1| ==> 0.0 < r.1[i] < r.1[j]
    ensures r.0 > 0
  {
    match p
    case ShadowsLow => (1024, [200.0, 600.0])
    case ShadowsMedium => (2048, [150.0, 500.0, 1000.0])
    case ShadowsHigh => (4096, [100.0, 300.0, 800.0, 1500.0])
    case ShadowsOff => (1, [100.0])
  }

  // ------------------------------------------------------ ReloadShaders

  /** `std::to_string` of a natural number. */
  function Decimal(n: nat): (s: string)
    ensures |s| > 0 && forall i :: 0 <= i < |s| ==> '0' <= s[i] <= '9'
    decreases n
  {
    var d := [(n % 10) as char + '0'];
    if n < 10 then d else Decimal(n / 10) + d
  }

  /** Distinct numbers print differently, so FRUSTUM_INDEX tells the cascade programs apart. */
  lemma {:induction false} DecimalInjective(a: nat, b: nat)
    requires Decimal(a) == Decimal(b)
    ensures a == b
    decreases a
  {
    var da, db := Decimal(a), Decimal(b);
    assert da[|da| - 1] == db[|db| - 1];
    assert a % 10 == b % 10;
    if a >= 10 && b >= 10 {
      assert Decimal(a / 10) == da[..|da| - 1] && Decimal(b / 10) == db[..|db| - 1];
      DecimalInjective(a / 10, b / 10);
    }
  }

  /** A program to build: its shader name and the constants set on it, in SetConstant order. */
  datatype Recipe = Recipe(name: string, constants: seq<(string, string)>)

  /**
   * What the rebuilt programs read besides the settings: the highlight count
   * with its colours already formatted, and the cascade splits with their
   * formatted text (float formatting is not modelled).
   */
  datatype ReloadInputs = ReloadInputs(highlightCount: nat, highlightColors: string, cascadeCount: nat, cascadeSplits: string)

  function OnOff(b: bool): string { if b then "1" else "0" }

  function LightingRecipe(s: Settings, inp: ReloadInputs): Recipe
  {
    Recipe("lighting", [
      ("MATERIALS_PER_UBO", Decimal(1024)),
      ("HIGHLIGHT_COUNT", Decimal(inp.highlightCount)),
      ("HIGHLIGHT_COLORS", inp.highlightColors),
      ("OUTLINES", OnOff(s.outlines != OutlinesOff)),
      ("SHADOWS", OnOff(s.shadows != ShadowsOff)),
      ("SHADOW_PCF", OnOff(s.shadows != ShadowsOff && s.shadows != ShadowsLow)),
      ("MAX_FRUSTUMS", Decimal(MaxCsmFrustums)),
      ("CASCADE_COUNT", Decimal(inp.cascadeCount)),
      ("CASCADE_SPLITS", inp.cascadeSplits)])
  }

  function MeshRecipe(): Recipe { Recipe("mesh", [("MODELS_PER_UBO", Decimal(256))]) }
  function TextRecipe(): Recipe { Recipe("text", []) }
  function DebugRecipe(): Recipe { Recipe("debug", []) }

  function CsmRecipe(i: nat): Recipe
  {
    Recipe("csm", [("FRUSTUM_INDEX", Decimal(i)), ("MODELS_PER_UBO", Decimal(256)), ("MAX_FRUSTUMS", Decimal(MaxCsmFrustums))])
  }

  /** One cascade program per cascade, numbered from 0. */
  function CsmRecipes(n: nat): (r: seq<Recipe>)
    ensures |r| == n && forall i :: 0 <= i < n ==> r[i] == CsmRecipe(i)
  {
    seq(n, i requires 0 <= i < n => CsmRecipe(i))
  }

  function FxaaRecipe(s: Settings): Recipe
  {
    Recipe("fxaa", [("FXAA_PRESET", match s.fxaa case FxaaOff => "0" case FxaaLow => "1" case FxaaHigh => "2")])
  }

  /** The programs ReloadShaders rebuilds for a mask, in order (lines 100-250). */
  function Rebuilt(mask: ShaderMask, s: Settings, inp: ReloadInputs): seq<Recipe>
  {
    (if Selects(mask, MeshProgram) then [MeshRecipe()] else []) +
    (if Selects(mask, LightingProgram) then [LightingRecipe(s, inp)] else []) +
    (if Selects(mask, CsmPrograms) then CsmRecipes(inp.cascadeCount) else []) +
    (if Selects(mask, TextProgram) then [TextRecipe()] else []) +
    (if Selects(mask, FxaaProgram) then [FxaaRecipe(s)] else []) +
    (if Selects(mask, DebugProgram) then [DebugRecipe()] else [])
  }

  /** ALL rebuilds the six kinds of program in order, with one cascade program per cascade. */
  lemma RebuiltAll(s: Settings, inp: ReloadInputs)
    ensures Rebuilt(AllShaders, s, inp) ==
      [MeshRecipe(), LightingRecipe(s, inp)] + CsmRecipes(inp.cascadeCount) + [TextRecipe(), FxaaRecipe(s), DebugRecipe()]
    ensures |Rebuilt(AllShaders, s, inp)| == 5 + inp.cascadeCount
  {
    AllSelectsEverything(MeshProgram);
    AllSelectsEverything(LightingProgram);
    AllSelectsEverything(CsmPrograms);
    AllSelectsEverything(TextProgram);
    AllSelectsEverything(FxaaProgram);
    AllSelectsEverything(DebugProgram);
  }

  /**
   * The shadow constants: SHADOWS is "1" iff shadows are on, SHADOW_PCF is
   * "1" iff shadows are MEDIUM or HIGH.
   */
  lemma LightingShadowConstants(s: Settings, inp: ReloadInputs)
    ensures var c := LightingRecipe(s, inp).constants;
      (c[4].1 == "1" <==> s.shadows != ShadowsOff) &&
      (c[5].1 == "1" <==> s.shadows == ShadowsMedium || s.shadows == ShadowsHigh)
  {
  }

  /** The cascade programs differ exactly in FRUSTUM_INDEX. */
  lemma CsmRecipesDistinct(i: nat, j: nat)
    requires i != j
    ensures CsmRecipe(i) != CsmRecipe(j)
    ensures CsmRecipe(i).constants[1..] == CsmRecipe(j).constants[1..]
  {
    if CsmRecipe(i) == CsmRecipe(j) {
      assert CsmRecipe(i).constants[0] == CsmRecipe(j).constants[0];
      DecimalInjective(i, j);
    }
  }
}

/**
 * A profile whose perimeter and voids are given as lists of (X, Y)
 * expression strings. Each list is compiled into the source text of a
 * polygon constructor; evaluating that text (a C# script run) is taken as
 * a function parameter, `evaluate`.
 */
module ParametricProfiles {
  import opened Exceptions
  import opened Geometry

  /** A profile vertex given as two expression strings. */
  datatype VectorExpression = VectorExpression(x: string, y: string)

  const ScriptPrefix: string := "new Polygon(new[]{"
  const ScriptSuffix: string := "})"

  /** The script text for one vertex. */
  function Fragment(e: VectorExpression): (r: string)
    ensures |r| == |e.x| + |e.y| + 16
  {
    "new Vector3(" + e.x + ", " + e.y + "),"
  }

  /** The fragments of all vertices, in input order: 16 characters per vertex besides its two expressions. */
  function Fragments(exprs: seq<VectorExpression>): (text: string)
    ensures |text| == 16 * |exprs| + ExpressionLength(exprs)
  {
    if exprs == [] then "" else Fragments(exprs[..|exprs| - 1]) + Fragment(exprs[|exprs| - 1])
  }

  /** The script compiled from `exprs`: the prefix, one fragment per expression, the suffix. */
  function PolygonScript(exprs: seq<VectorExpression>): (script: string)
    ensures |script| >= |ScriptPrefix| + |ScriptSuffix|
    ensures script[..|ScriptPrefix|] == ScriptPrefix
    ensures script[|script| - |ScriptSuffix|..] == ScriptSuffix
    ensures exprs == [] <==> script == "new Polygon(new[]{})"
  {
    assert exprs != [] ==> |Fragments(exprs)| > 0 by {
      if exprs != [] { assert |Fragment(exprs[|exprs| - 1])| > 0; }
    }
    ScriptPrefix + Fragments(exprs) + ScriptSuffix
  }

  /** CompilePolygonScriptFromExpressions: appends one fragment per expression between prefix and suffix. */
  method CompilePolygonScriptFromExpressions(expressions: seq<VectorExpression>) returns (script: string)
    ensures script == PolygonScript(expressions)
  {
    var sb := ScriptPrefix;
    for i := 0 to |expressions|
      invariant sb == ScriptPrefix + Fragments(expressions[..i])
    {
      var expr := expressions[i];
      assert expressions[..i + 1][..i] == expressions[..i];
      sb := sb + ("new Vector3(" + expr.x + ", " + expr.y + "),");
    }
    assert expressions[..|expressions|] == expressions;
    script := sb + ScriptSuffix;
  }

  /** Compiling a concatenation of vertex lists concatenates their fragments. */
  lemma {:induction false} FragmentsAppend(a: seq<VectorExpression>, b: seq<VectorExpression>)
    ensures Fragments(a + b) == Fragments(a) + Fragments(b)
    decreases |b|
  {
    if b != [] {
      var init := b[..|b| - 1];
      assert (a + b)[..|a + b| - 1] == a + init;
      assert (a + b)[|a + b| - 1] == b[|b| - 1];
      FragmentsAppend(a, init);
    } else {
      assert a + b == a;
    }
  }

  /**
   * The i-th expression's fragment sits in the script right after the
   * fragments of the expressions before it: one fragment per expression,
   * in input order.
   */
  lemma {:induction false} FragmentAt(exprs: seq<VectorExpression>, i: nat)
    requires i < |exprs|
    ensures |ScriptPrefix| + |Fragments(exprs[..i])| + |Fragment(exprs[i])| <= |PolygonScript(exprs)|
    ensures var start := |ScriptPrefix| + |Fragments(exprs[..i])|;
      PolygonScript(exprs)[start..start + |Fragment(exprs[i])|] == Fragment(exprs[i])
  {
    FragmentsAround(exprs, i);
    var before, own, after := ScriptPrefix + Fragments(exprs[..i]), Fragment(exprs[i]), Fragments(exprs[i + 1..]) + ScriptSuffix;
    assert PolygonScript(exprs) == before + own + after;
    MiddleSlice(before, own, after);
  }

  /** The fragments of a list: those before the i-th expression, its own, those after it. */
  lemma {:induction false} FragmentsAround(exprs: seq<VectorExpression>, i: nat)
    requires i < |exprs|
    ensures Fragments(exprs) == Fragments(exprs[..i]) + Fragment(exprs[i]) + Fragments(exprs[i + 1..])
  {
    var e, pre, post := exprs[i], exprs[..i], exprs[i + 1..];
    assert exprs == pre + [e] + post;
    FragmentsAppend(pre + [e], post);
    FragmentsAppend(pre, [e]);
    assert Fragments([e]) == Fragment(e) by {
      assert [e][..0] == [];
    }
  }

  lemma MiddleSlice(a: string, b: string, c: string)
    ensures (a + b + c)[|a|..|a| + |b|] == b
  {
  }

  /** The script's length: the fixed 20 characters plus 16 more and both expressions' lengths per vertex. */
  lemma ScriptLength(exprs: seq<VectorExpression>)
    ensures |PolygonScript(exprs)| == 20 + 16 * |exprs| + ExpressionLength(exprs)
  {
  }

  function ExpressionLength(exprs: seq<VectorExpression>): nat {
    if exprs == [] then 0 else ExpressionLength(exprs[..|exprs| - 1]) + |exprs[|exprs| - 1].x| + |exprs[|exprs| - 1].y|
  }

  /** The void scripts the constructor compiles: none for a null list, else one per void list, in order. */
  predicate CompiledVoids(voidVectorExpressions: Option<seq<seq<VectorExpression>>>, voidScripts: seq<string>) {
    match voidVectorExpressions
    case None => voidScripts == []
    case Some(lists) =>
      |voidScripts| == |lists| && forall i :: 0 <= i < |lists| ==> voidScripts[i] == PolygonScript(lists[i])
  }

  /** The position of the first script whose evaluation throws, or the number of scripts when none does. */
  function FirstFailing(scripts: seq<string>, evaluate: string -> Result<Polygon>): (k: nat)
    ensures k <= |scripts|
    ensures forall i :: 0 <= i < k ==> evaluate(scripts[i]).Success?
    ensures k < |scripts| ==> evaluate(scripts[k]).Failure?
  {
    if scripts == [] then 0
    else if evaluate(scripts[0]).Failure? then 0
    else 1 + FirstFailing(scripts[1..], evaluate)
  }

  class ParametricProfile {
    const perimeterVectorExpressions: seq<VectorExpression>
    const voidVectorExpressions: Option<seq<seq<VectorExpression>>>
    const perimeterScript: string
    var voidScripts: seq<string>
    /** The Profile base class's perimeter and voids. */
    var perimeter: Option<Polygon>
    var voids: Option<seq<Polygon>>

    /**
     * Stores both expression lists and the given geometry, compiles the
     * perimeter script and one void script per void list.
     */
    constructor (perimeterVectorExpressions: seq<VectorExpression>,
                 voidVectorExpressions: Option<seq<seq<VectorExpression>>>,
                 perimeter: Option<Polygon>,
                 voids: Option<seq<Polygon>>)
      ensures this.perimeterVectorExpressions == perimeterVectorExpressions
      ensures this.voidVectorExpressions == voidVectorExpressions
      ensures this.perimeter == perimeter && this.voids == voids
      ensures perimeterScript == PolygonScript(perimeterVectorExpressions)
      ensures CompiledVoids(voidVectorExpressions, voidScripts)
    {
      this.perimeter := perimeter;
      this.voids := voids;
      this.perimeterVectorExpressions := perimeterVectorExpressions;
      this.voidVectorExpressions := voidVectorExpressions;
      var script := CompilePolygonScriptFromExpressions(perimeterVectorExpressions);
      this.perimeterScript := script;
      this.voidScripts := [];
      new;
      if voidVectorExpressions.Some? {
        var lists := voidVectorExpressions.value;
        for i := 0 to |lists|
          invariant this.perimeter == perimeter && this.voids == voids
          invariant |voidScripts| == i
          invariant forall k :: 0 <= k < i ==> voidScripts[k] == PolygonScript(lists[k])
        {
          var voidScript := CompilePolygonScriptFromExpressions(lists[i]);
          voidScripts := voidScripts + [voidScript];
        }
      }
    }

    /**
     * SetGeometryAsync: rejects an empty perimeter expression list without
     * touching the geometry; otherwise evaluates the perimeter script, then
     * builds a new void list, one polygon per void script in order. A script
     * that throws stops it there: a failing perimeter leaves both properties
     * as they were, a failing void script leaves the new perimeter and the
     * voids evaluated before it.
     */
    method SetGeometry(evaluate: string -> Result<Polygon>) returns (r: Outcome)
      modifies this`perimeter, this`voids
      ensures |perimeterVectorExpressions| == 0 ==>
        r == Fail(ArgumentException) && perimeter == old(perimeter) && voids == old(voids)
      ensures |perimeterVectorExpressions| > 0 && evaluate(perimeterScript).Failure? ==>
        r == Fail(evaluate(perimeterScript).error) && perimeter == old(perimeter) && voids == old(voids)
      ensures |perimeterVectorExpressions| > 0 && evaluate(perimeterScript).Success? ==>
        && perimeter == Some(evaluate(perimeterScript).value)
        && voids.Some? && |voids.value| == FirstFailing(voidScripts, evaluate)
        && (forall i :: 0 <= i < |voids.value| ==> voids.value[i] == evaluate(voidScripts[i]).value)
        && r == if |voids.value| == |voidScripts| then Pass else Fail(evaluate(voidScripts[|voids.value|]).error)
    {
      if |perimeterVectorExpressions| == 0 {
        return Fail(ArgumentException);
      }
      var outline := evaluate(perimeterScript);
      if outline.Failure? {
        return Fail(outline.error);
      }
      perimeter := Some(outline.value);
      var polygons: seq<Polygon> := [];
      voids := Some(polygons);
      if |voidScripts| > 0 {
        for i := 0 to |voidScripts|
          invariant perimeter == Some(outline.value)
          invariant voids == Some(polygons) && |polygons| == i
          invariant i <= FirstFailing(voidScripts, evaluate)
          invariant forall k :: 0 <= k < i ==> polygons[k] == evaluate(voidScripts[k]).value
        {
          var voidPoly := evaluate(voidScripts[i]);
          if voidPoly.Failure? {
            return Fail(voidPoly.error);
          }
          polygons := polygons + [voidPoly.value];
          voids := Some(polygons);
        }
      }
      return Pass;
    }
  }
}

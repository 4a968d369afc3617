/**
 * The type names of the OpenAPI document the code generator writes
 * (cmdgen/genapi/genswagger.go): `exprToType` reads a Go type expression
 * as a type name, and `typeToOpenAPI` maps such a name to an OpenAPI
 * schema type.
 */
module GenSwagger {
  import opened StringHelpers

  /** The shapes of `go/ast` type expressions `exprToType` tells apart. */
  datatype Expr =
    | Ident(name: string)                  // `int`, `User`
    | ArrayType(fixedLen: bool, elt: Expr) // `[]T`, or `[N]T` when `fixedLen`
    | StarExpr(x: Expr)                    // `*T`
    | SelectorExpr(x: Expr, sel: string)   // `pkg.T`
    | Other                                // maps, interfaces, functions, channels, ...

  /** `exprToType(expr)` */
  function ExprToType(e: Expr): (r: string)
    ensures HasPrefix(r, Repeat("[]", Depth(e)))
  {
    match e
    case Ident(name) => name
    case ArrayType(_, elt) => "[]" + ExprToType(elt)
    case StarExpr(x) => ExprToType(x)
    case SelectorExpr(_, sel) => sel
    case Other => "object"
  }

  /** `typeToOpenAPI(goType)` */
  function TypeToOpenAPI(goType: string): (r: string)
    ensures r in {"integer", "number", "boolean", "string", "array", "object"}
  {
    if goType == "int" || goType == "int64" then "integer"
    else if goType == "float64" || goType == "float32" then "number"
    else if goType == "bool" then "boolean"
    else if goType == "string" then "string"
    else if HasPrefix(goType, "[]") then "array"
    else "object"
  }

  // ---------------------------------------------------------------------
  // The type mapping, case by case
  // ---------------------------------------------------------------------

  /** The OpenAPI type is one of six, each for exactly the Go types listed. */
  lemma TypeToOpenAPICases(goType: string)
    ensures TypeToOpenAPI(goType) == "integer" <==> goType == "int" || goType == "int64"
    ensures TypeToOpenAPI(goType) == "number" <==> goType == "float64" || goType == "float32"
    ensures TypeToOpenAPI(goType) == "boolean" <==> goType == "bool"
    ensures TypeToOpenAPI(goType) == "string" <==> goType == "string"
    ensures TypeToOpenAPI(goType) == "array" <==> HasPrefix(goType, "[]")
  {
    if HasPrefix(goType, "[]") {
      assert goType[0] == goType[..2][0] == '[';
    }
  }

  /** A name not starting with `[` is not a slice type name. */
  lemma NotBracketed(s: string)
    requires s != [] && s[0] != '['
    ensures !HasPrefix(s, "[]")
  {
    if |s| >= 2 {
      assert s[..2][0] == s[0];
    }
  }

  /** Sized integers other than `int64`, unsigned integers and `byte` all fall through to "object". */
  lemma OtherIntegersAreObjects()
    ensures TypeToOpenAPI("int32") == "object" && TypeToOpenAPI("uint") == "object"
    ensures TypeToOpenAPI("int8") == "object" && TypeToOpenAPI("byte") == "object"
  {
    TypeToOpenAPICases("int32");
    TypeToOpenAPICases("uint");
    TypeToOpenAPICases("int8");
    TypeToOpenAPICases("byte");
  }

  // ---------------------------------------------------------------------
  // The type names, against a reference reading
  // ---------------------------------------------------------------------

  /** How many array brackets lead to the base of `e`, looking through pointers. */
  function Depth(e: Expr): nat
  {
    match e
    case ArrayType(_, elt) => 1 + Depth(elt)
    case StarExpr(x) => Depth(x)
    case _ => 0
  }

  /** The base of `e` once arrays and pointers are looked through. */
  function Base(e: Expr): (b: Expr)
    ensures !b.ArrayType? && !b.StarExpr?
  {
    match e
    case ArrayType(_, elt) => Base(elt)
    case StarExpr(x) => Base(x)
    case _ => e
  }

  function Repeat(s: string, n: nat): (r: string)
    ensures |r| == n * |s|
  {
    if n == 0 then "" else s + Repeat(s, n - 1)
  }

  /** The name of a base expression: an identifier's name, a selector's selected name, else "object". */
  function BaseName(b: Expr): string
  {
    match b
    case Ident(name) => name
    case SelectorExpr(_, sel) => sel
    case _ => "object"
  }

  /**
   * A type name is one "[]" per array level (fixed-length or not), then
   * the base name: pointers vanish and a selector keeps only its
   * selected name.
   */
  lemma {:induction false} ExprToTypeShape(e: Expr)
    ensures ExprToType(e) == Repeat("[]", Depth(e)) + BaseName(Base(e))
  {
    match e
    case ArrayType(_, elt) =>
      ExprToTypeShape(elt);
      assert "[]" + (Repeat("[]", Depth(elt)) + BaseName(Base(elt)))
          == "[]" + Repeat("[]", Depth(elt)) + BaseName(Base(elt));
    case StarExpr(x) =>
      ExprToTypeShape(x);
    case _ =>
  }

  /** Pointers are transparent to both steps. */
  lemma PointerTransparent(e: Expr)
    ensures ExprToType(StarExpr(e)) == ExprToType(e)
    ensures TypeToOpenAPI(ExprToType(StarExpr(e))) == TypeToOpenAPI(ExprToType(e))
  {
  }

  /** An array type, through any number of pointers, is an OpenAPI "array". */
  lemma {:induction false} ArraysAreArrays(e: Expr)
    requires Depth(e) > 0
    ensures TypeToOpenAPI(ExprToType(e)) == "array"
  {
    ExprToTypeShape(e);
    var d := Depth(e);
    assert ExprToType(e) == "[]" + (Repeat("[]", d - 1) + BaseName(Base(e)));
    TypeToOpenAPICases(ExprToType(e));
  }

  /** A pointer to `int` is an "integer"; a selector type such as `time.Time` an "object". */
  lemma CompositionExamples(pkg: Expr)
    ensures TypeToOpenAPI(ExprToType(StarExpr(Ident("int")))) == "integer"
    ensures TypeToOpenAPI(ExprToType(StarExpr(StarExpr(Ident("float64"))))) == "number"
    ensures TypeToOpenAPI(ExprToType(SelectorExpr(pkg, "Time"))) == "object"
    ensures TypeToOpenAPI(ExprToType(Other)) == "object"
  {
    NotBracketed("Time");
    NotBracketed("object");
  }

  /**
   * A selector keeps only the selected name, so a package type named
   * like a builtin maps like the builtin (`sql.string`, say).
   */
  lemma SelectorDropsPackage(pkg: Expr, sel: string)
    ensures ExprToType(SelectorExpr(pkg, sel)) == ExprToType(Ident(sel))
    ensures TypeToOpenAPI(ExprToType(SelectorExpr(pkg, sel))) == TypeToOpenAPI(sel)
  {
  }
}

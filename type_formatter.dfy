/** `format_sql_type`: the first-match cascade that turns one column's catalog
    metadata into the type written in its CREATE TABLE clause. The cascade is
    split into `Classify`, which decides the declared type as a value, and
    `Render`, which spells it the way the script's f-strings do.
    `ParseDecl` reads a rendered type back, so that the round trip
    `FormatSqlTypeParses` shows the emitted text carries exactly the declared
    parameters. */
module TypeFormatter {

  import opened Wrappers
  import opened Text
  import opened Metadata

  /** Legacy large-object types and the MAX types they are rewritten to. */
  const LegacyLobs: map<string, string> :=
    map["text" := "varchar", "ntext" := "nvarchar", "image" := "varbinary"]

  const VariableLength: set<string> := {"varchar", "nvarchar", "varbinary"}

  const FixedLength: set<string> := {"char", "nchar", "binary"}

  /** Types whose max_length counts bytes of two-byte characters. */
  const WideChar: set<string> := {"nvarchar", "nchar"}

  const ExactNumeric: set<string> := {"decimal", "numeric"}

  const FractionalTime: set<string> := {"datetime2", "datetimeoffset", "time"}

  /** The engine's default number of fractional-second digits. */
  const DefaultFractionalDigits: int := 7

  /** Every type name some rule of the cascade matches. */
  const Parameterised: set<string> :=
    LegacyLobs.Keys + VariableLength + FixedLength + ExactNumeric + FractionalTime

  /** The parenthesised part of a declared type. */
  datatype TypeArgs =
    | NoArgs
    | MaxLength
    | Length(n: int)
    | PrecisionScale(precision: int, scale: Option<int>)
    | FractionalSeconds(digits: int)

  datatype TypeDecl = TypeDecl(name: string, args: TypeArgs)

  /** `(r.data_type or "").lower()`. */
  function TypeName(c: Column): (dt: string)
    ensures NoUpper(dt)
    ensures c.dataType.None? ==> dt == ""
  {
    Lower(if c.dataType.Some? then c.dataType.value else "")
  }

  /** The cascade of format_sql_type, first match wins. Python's `// 2`
      rounds towards minus infinity, as Dafny's `/` does for a positive
      divisor. */
  function Classify(c: Column): TypeDecl
  {
    var dt := TypeName(c);
    if dt == "text" then TypeDecl("varchar", MaxLength)
    else if dt == "ntext" then TypeDecl("nvarchar", MaxLength)
    else if dt == "image" then TypeDecl("varbinary", MaxLength)
    else if dt in VariableLength then
      if c.maxLength == -1 then TypeDecl(dt, MaxLength)
      else if dt == "nvarchar" then TypeDecl("nvarchar", Length(c.maxLength / 2))
      else TypeDecl(dt, Length(c.maxLength))
    else if dt in FixedLength then
      if dt == "nchar" then TypeDecl("nchar", Length(c.maxLength / 2))
      else TypeDecl(dt, Length(c.maxLength))
    else if dt in ExactNumeric then TypeDecl(dt, PrecisionScale(c.precision, c.scale))
    else if dt in FractionalTime then
      var s := if c.scale.Some? && c.scale.value != 0 then c.scale.value else DefaultFractionalDigits;
      TypeDecl(dt, FractionalSeconds(s))
    else TypeDecl(dt, NoArgs)
  }

  /** The declared name: the MAX replacement of a legacy large-object type,
      the lower-cased catalog name otherwise. */
  lemma ClassifyName(c: Column)
    ensures TypeName(c) in LegacyLobs ==> Classify(c).name == LegacyLobs[TypeName(c)]
    ensures TypeName(c) !in LegacyLobs ==> Classify(c).name == TypeName(c)
    ensures NoUpper(Classify(c).name)
  {
    if TypeName(c) in LegacyLobs {
      assert Classify(c).name in {"varchar", "nvarchar", "varbinary"};
    }
  }

  /** The declared arguments, rule by rule: the MAX types, the lengths
      (halved for the wide character types), precision and scale, the
      fractional-second digits with their default, and no arguments for
      every type no rule names. */
  lemma ClassifyArgs(c: Column)
    ensures Classify(c).args == MaxLength <==>
              TypeName(c) in LegacyLobs || (TypeName(c) in VariableLength && c.maxLength == -1)
    ensures Classify(c).args.Length? <==>
              (TypeName(c) in VariableLength && c.maxLength != -1) || TypeName(c) in FixedLength
    ensures Classify(c).args.Length? ==>
              Classify(c).args.n == if TypeName(c) in WideChar then c.maxLength / 2 else c.maxLength
    ensures Classify(c).args.PrecisionScale? <==> TypeName(c) in ExactNumeric
    ensures Classify(c).args.PrecisionScale? ==> Classify(c).args == PrecisionScale(c.precision, c.scale)
    ensures Classify(c).args.FractionalSeconds? <==> TypeName(c) in FractionalTime
    ensures Classify(c).args.FractionalSeconds? && (c.scale.None? || c.scale == Some(0)) ==>
              Classify(c).args.digits == DefaultFractionalDigits
    ensures Classify(c).args.FractionalSeconds? && c.scale.Some? && c.scale.value != 0 ==>
              Classify(c).args.digits == c.scale.value
  {
  }

  /** No rule matches exactly the types that are declared without arguments. */
  lemma ClassifyNoArgs(c: Column)
    ensures Classify(c).args == NoArgs <==> TypeName(c) !in Parameterised
  {
  }

  /** What the cascade decides, name and arguments together. */
  lemma ClassifyCases(c: Column)
    ensures TypeName(c) in LegacyLobs ==> Classify(c).name == LegacyLobs[TypeName(c)]
    ensures TypeName(c) !in LegacyLobs ==> Classify(c).name == TypeName(c)
    ensures NoUpper(Classify(c).name)
    ensures Classify(c).args == MaxLength <==>
              TypeName(c) in LegacyLobs || (TypeName(c) in VariableLength && c.maxLength == -1)
    ensures Classify(c).args.Length? <==>
              (TypeName(c) in VariableLength && c.maxLength != -1) || TypeName(c) in FixedLength
    ensures Classify(c).args.Length? ==>
              Classify(c).args.n == if Classify(c).name in WideChar then c.maxLength / 2 else c.maxLength
    ensures Classify(c).args.PrecisionScale? <==> TypeName(c) in ExactNumeric
    ensures Classify(c).args.PrecisionScale? ==> Classify(c).args == PrecisionScale(c.precision, c.scale)
    ensures Classify(c).args.FractionalSeconds? <==> TypeName(c) in FractionalTime
    ensures Classify(c).args.FractionalSeconds? && (c.scale.None? || c.scale == Some(0)) ==>
              Classify(c).args.digits == DefaultFractionalDigits
    ensures Classify(c).args.FractionalSeconds? && c.scale.Some? && c.scale.value != 0 ==>
              Classify(c).args.digits == c.scale.value
    ensures Classify(c).args == NoArgs <==> TypeName(c) !in Parameterised
  {
    ClassifyName(c);
    ClassifyArgs(c);
    ClassifyNoArgs(c);
  }

  /** The text between the parentheses of an argument list. */
  function ArgsText(a: TypeArgs): string
    requires a != NoArgs
  {
    match a
    case MaxLength => "MAX"
    case Length(n) => IntToString(n)
    case PrecisionScale(p, s) => IntToString(p) + "," + OptIntToString(s)
    case FractionalSeconds(k) => IntToString(k)
  }

  function RenderArgs(a: TypeArgs): string
  {
    if a == NoArgs then "" else "(" + ArgsText(a) + ")"
  }

  function Render(d: TypeDecl): string
  {
    d.name + RenderArgs(d.args)
  }

  /** Every argument list other than `(MAX)` ends in a digit, or in the `e`
      of `None`, before its `)`. */
  lemma ArgsTail(a: TypeArgs)
    requires a != NoArgs && a != MaxLength
    ensures |RenderArgs(a)| >= 2 && RenderArgs(a)[|RenderArgs(a)| - 2] != 'X'
  {
    var t := ArgsText(a);
    if a.PrecisionScale? {
      var u := OptIntToString(a.scale);
      assert t[|t| - 1] == u[|u| - 1];
    }
    assert t[|t| - 1] != 'X';
    var r := RenderArgs(a);
    assert r[|r| - 2] == t[|t| - 1];
  }

  /** A rendered type other than `(MAX)` never has `X` as its last character
      but one, since a bare type name is lower case. */
  lemma NoMaxMarker(d: TypeDecl)
    requires NoUpper(d.name)
    requires d.args != MaxLength
    ensures |Render(d)| >= 2 ==> Render(d)[|Render(d)| - 2] != 'X'
  {
    var s := Render(d);
    if d.args == NoArgs {
      assert s == d.name;
    } else {
      ArgsTail(d.args);
      var r := RenderArgs(d.args);
      assert s[|s| - 2] == r[|r| - 2];
    }
  }

  lemma RenderedTail(d: TypeDecl)
    requires NoUpper(d.name)
    ensures EndsWith(Render(d), "(MAX)") <==> d.args == MaxLength
  {
    var s := Render(d);
    if d.args == MaxLength {
      assert s[|s| - 5..] == "(MAX)";
    } else {
      NoMaxMarker(d);
      if |s| >= 5 {
        assert s[|s| - 5..][3] == s[|s| - 2];
      }
    }
  }

  /** format_sql_type. */
  function FormatSqlType(c: Column): string
  {
    Render(Classify(c))
  }

  /** The result ends in `(MAX)` exactly when the declared type is
      unbounded. */
  lemma FormatSqlTypeMax(c: Column)
    ensures EndsWith(FormatSqlType(c), "(MAX)") <==> Classify(c).args == MaxLength
  {
    ClassifyCases(c);
    RenderedTail(Classify(c));
  }

  lemma RenderOneArg(name: string, a: TypeArgs, n: int)
    requires a == Length(n) || a == FractionalSeconds(n)
    ensures Render(TypeDecl(name, a)) == name + "(" + IntToString(n) + ")"
  {
    var x := IntToString(n);
    assert ArgsText(a) == x;
    Assoc(name, "(" + x, ")");
    Assoc(name, "(", x);
  }

  lemma RenderTwoArgs(name: string, p: int, s: Option<int>)
    ensures Render(TypeDecl(name, PrecisionScale(p, s))) ==
              name + "(" + IntToString(p) + "," + OptIntToString(s) + ")"
  {
    var x, y := IntToString(p), OptIntToString(s);
    assert ArgsText(PrecisionScale(p, s)) == x + "," + y;
    Assoc(name, "(" + (x + "," + y), ")");
    Assoc(name, "(", x + "," + y);
    Assoc(name + "(", x + ",", y);
    Assoc(name + "(", x, ",");
  }

  /** The emitted type never ends in an upper-case letter: a `)` closes it,
      or it is a lower-cased catalog name. */
  lemma FormatSqlTypeLastChar(c: Column)
    ensures |FormatSqlType(c)| > 0 ==> !IsUpper(FormatSqlType(c)[|FormatSqlType(c)| - 1])
  {
    var d := Classify(c);
    var s := FormatSqlType(c);
    ClassifyCases(c);
    if d.args == NoArgs {
      assert s == TypeName(c);
    } else {
      var r := RenderArgs(d.args);
      assert r[|r| - 1] == ')';
      assert s == d.name + r;
      assert s[|s| - 1] == r[|r| - 1];
    }
  }

  /** The legacy large-object types become their MAX equivalents. */
  lemma FormatLegacyLob(c: Column)
    ensures TypeName(c) == "text" ==> FormatSqlType(c) == "varchar(MAX)"
    ensures TypeName(c) == "ntext" ==> FormatSqlType(c) == "nvarchar(MAX)"
    ensures TypeName(c) == "image" ==> FormatSqlType(c) == "varbinary(MAX)"
  {
    var dt := TypeName(c);
    if dt in LegacyLobs {
      var d := TypeDecl(LegacyLobs[dt], MaxLength);
      assert Classify(c) == d;
      assert Render(d) == LegacyLobs[dt] + "(MAX)";
    }
  }

  /** A variable-length type with the -1 sentinel is declared `dt(MAX)`. */
  lemma FormatUnbounded(c: Column)
    requires TypeName(c) in VariableLength && c.maxLength == -1
    ensures FormatSqlType(c) == TypeName(c) + "(MAX)"
  {
    ClassifyCases(c);
    assert FormatSqlType(c) == Render(Classify(c));
  }

  /** A bounded character or binary type declares its length in characters:
      half the stored bytes for the wide types, the bytes otherwise. The
      fixed-length types have no MAX case. */
  lemma FormatDeclaredLength(c: Column)
    requires (TypeName(c) in VariableLength && c.maxLength != -1) || TypeName(c) in FixedLength
    ensures TypeName(c) in WideChar ==>
              FormatSqlType(c) == TypeName(c) + "(" + IntToString(c.maxLength / 2) + ")"
    ensures TypeName(c) !in WideChar ==>
              FormatSqlType(c) == TypeName(c) + "(" + IntToString(c.maxLength) + ")"
  {
    var n := if TypeName(c) in WideChar then c.maxLength / 2 else c.maxLength;
    ClassifyCases(c);
    assert Classify(c) == TypeDecl(TypeName(c), Length(n));
    RenderOneArg(TypeName(c), Length(n), n);
  }

  /** decimal and numeric are declared with their precision and scale. */
  lemma FormatExactNumeric(c: Column)
    requires TypeName(c) in ExactNumeric
    ensures FormatSqlType(c) ==
              TypeName(c) + "(" + IntToString(c.precision) + "," + OptIntToString(c.scale) + ")"
  {
    ClassifyCases(c);
    assert Classify(c) == TypeDecl(TypeName(c), PrecisionScale(c.precision, c.scale));
    RenderTwoArgs(TypeName(c), c.precision, c.scale);
  }

  /** The temporal types with fractional seconds are declared with their
      scale, 7 when the catalog gives NULL or 0. */
  lemma FormatFractionalTime(c: Column)
    requires TypeName(c) in FractionalTime
    ensures c.scale.None? || c.scale == Some(0) ==> FormatSqlType(c) == TypeName(c) + "(7)"
    ensures c.scale.Some? && c.scale.value != 0 ==>
              FormatSqlType(c) == TypeName(c) + "(" + IntToString(c.scale.value) + ")"
  {
    var k := if c.scale.Some? && c.scale.value != 0 then c.scale.value else DefaultFractionalDigits;
    ClassifyCases(c);
    assert Classify(c) == TypeDecl(TypeName(c), FractionalSeconds(k));
    RenderOneArg(TypeName(c), FractionalSeconds(k), k);
    assert IntToString(7) == "7";
  }

  /** Every other type, including an unknown or missing name, is emitted as
      its lower-cased catalog name: the formatter has no error case. */
  lemma FormatOther(c: Column)
    requires TypeName(c) !in Parameterised
    ensures FormatSqlType(c) == TypeName(c)
  {
    ClassifyCases(c);
    assert FormatSqlType(c) == Render(Classify(c));
  }

  /** Reads the parenthesised arguments back; a single number is a
      fractional-seconds count for the temporal types and a length otherwise. */
  function ParseArgs(name: string, inner: string): Option<TypeArgs>
  {
    if inner == "MAX" then Some(MaxLength)
    else
      var j := IndexOf(inner, ',');
      if j < |inner| then
        match (ParseInt(inner[..j]), ParseOptInt(inner[j + 1..]))
        case (Some(p), Some(s)) => Some(PrecisionScale(p, s))
        case _ => None
      else
        match ParseInt(inner)
        case Some(n) => Some(if name in FractionalTime then FractionalSeconds(n) else Length(n))
        case None => None
  }

  /** Reads a rendered type back: the name runs up to the first `(`. */
  function ParseDecl(s: string): Option<TypeDecl>
  {
    var i := IndexOf(s, '(');
    if i == |s| then Some(TypeDecl(s, NoArgs))
    else if i + 2 <= |s| && s[|s| - 1] == ')' then
      match ParseArgs(s[..i], s[i + 1..|s| - 1])
      case Some(a) => Some(TypeDecl(s[..i], a))
      case None => None
    else None
  }

  /** A declared type whose rendering can be read back unambiguously. */
  predicate Readable(d: TypeDecl)
  {
    && '(' !in d.name
    && (d.args.FractionalSeconds? ==> d.name in FractionalTime)
    && (d.args.Length? ==> d.name !in FractionalTime)
  }

  lemma NumeralHasNoSeparators(n: int)
    ensures ',' !in IntToString(n) && IntToString(n) != "MAX"
  {
    var t := IntToString(n);
    if n >= 0 {
      assert AllDigits(t);
    } else {
      assert t[0] == '-' && AllDigits(t[1..]);
      forall i | 1 <= i < |t| ensures t[i] != ',' {
        assert t[1..][i - 1] == t[i];
      }
    }
    assert IsDigit(t[|t| - 1]);
  }

  lemma ParseSingleNumber(name: string, n: int)
    ensures ParseArgs(name, IntToString(n)) ==
              Some(if name in FractionalTime then FractionalSeconds(n) else Length(n))
  {
    NumeralHasNoSeparators(n);
    ParseIntToString(n);
  }

  lemma ParseNumberPair(name: string, p: int, sc: Option<int>)
    ensures ParseArgs(name, IntToString(p) + "," + OptIntToString(sc)) == Some(PrecisionScale(p, sc))
  {
    var tp, ts := IntToString(p), OptIntToString(sc);
    var inner := tp + [','] + ts;
    assert tp + "," + ts == inner;
    NumeralHasNoSeparators(p);
    IndexOfAfter(tp, ',', ts);
    assert inner[|tp|] == ',';
    assert inner != "MAX" by {
      assert ',' in inner;
      assert ',' !in "MAX";
    }
    assert inner[..|tp|] == tp && inner[|tp| + 1..] == ts;
    ParseIntToString(p);
    ParseOptIntToString(sc);
  }

  /** The text between the parentheses of a rendered argument list reads
      back as that argument list. */
  lemma ParseArgsText(name: string, a: TypeArgs)
    requires a != NoArgs
    requires a.FractionalSeconds? ==> name in FractionalTime
    requires a.Length? ==> name !in FractionalTime
    ensures ParseArgs(name, ArgsText(a)) == Some(a)
  {
    match a
    case MaxLength =>
    case Length(n) =>
      ParseSingleNumber(name, n);
    case FractionalSeconds(n) =>
      ParseSingleNumber(name, n);
    case PrecisionScale(p, sc) =>
      ParseNumberPair(name, p, sc);
  }

  lemma ParseBareName(name: string)
    requires '(' !in name
    ensures ParseDecl(name) == Some(TypeDecl(name, NoArgs))
  {
    assert IndexOf(name, '(') == |name|;
  }

  lemma ParseWithArgs(name: string, inner: string, a: TypeArgs)
    requires '(' !in name
    requires ParseArgs(name, inner) == Some(a)
    ensures ParseDecl(name + ['('] + inner + [')']) == Some(TypeDecl(name, a))
  {
    var s := name + ['('] + inner + [')'];
    assert s == name + ['('] + (inner + [')']);
    IndexOfAfter(name, '(', inner + [')']);
    var i := |name|;
    assert s[..i] == name;
    assert s[i + 1..|s| - 1] == inner;
  }

  /** Rendering is reversible for every readable declared type. */
  lemma ParseRender(d: TypeDecl)
    requires Readable(d)
    ensures ParseDecl(Render(d)) == Some(d)
  {
    if d.args == NoArgs {
      assert Render(d) == d.name;
      ParseBareName(d.name);
    } else {
      var inner := ArgsText(d.args);
      ParseArgsText(d.name, d.args);
      assert Render(d) == d.name + ['('] + inner + [')'];
      ParseWithArgs(d.name, inner, d.args);
    }
  }

  /** The emitted type string determines the declared type: reading it back
      gives what `Classify` decided, whenever the catalog type name holds no
      `(`. A user-defined alias type whose name holds `(` is outside this
      lemma. */
  lemma FormatSqlTypeParses(c: Column)
    requires '(' !in TypeName(c)
    ensures ParseDecl(FormatSqlType(c)) == Some(Classify(c))
  {
    var d := Classify(c);
    ClassifyCases(c);
    if TypeName(c) in LegacyLobs {
      assert d.name in {"varchar", "nvarchar", "varbinary"};
    }
    ParseRender(d);
  }
}

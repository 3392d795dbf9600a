/**
 * Project variables: the variable, structure and enum records, the type
 * strings that name enums, structures and arrays ("enum:<name>",
 * "struct:<name>", "array:<element type>"), the migration of legacy type
 * fields, and the by-name lookup tables.
 */
module Variables {
  import opened Wrappers
  import opened JsValues
  import Strings

  datatype Variable = Variable(
    name: string,
    varType: string,
    defaultValue: Value,
    defaultMinValue: Value,
    defaultMaxValue: Value)

  datatype StructureField = StructureField(name: string, fieldType: string)
  datatype Structure = Structure(name: string, fields: seq<StructureField>)
  datatype EnumMember = EnumMember(name: string, value: int)
  datatype Enum = Enum(name: string, members: seq<EnumMember>)

  datatype ProjectVariables = ProjectVariables(
    globalVariables: seq<Variable>,
    structures: seq<Structure>,
    enums: seq<Enum>)

  // ---------------------------------------------------------------------------
  // Type strings

  /** The characters `.` does not match in a regular expression. */
  predicate IsLineTerminator(c: char)
  {
    c == '\n' || c == '\r' || c == '\U{2028}' || c == '\U{2029}'
  }

  /** What `(.*)` captures: the text before the first line terminator. */
  function FirstLine(s: string): (r: string)
    ensures Strings.IsPrefix(r, s)
    ensures forall i :: 0 <= i < |r| ==> !IsLineTerminator(r[i])
    ensures |r| < |s| ==> IsLineTerminator(s[|r|])
  {
    if |s| == 0 || IsLineTerminator(s[0]) then ""
    else [s[0]] + FirstLine(s[1..])
  }

  /** The capture of `/^<prefix>(.*)/`, or None when `t` does not start with `prefix`. */
  function PrefixedName(prefix: string, t: string): Option<string>
  {
    if Strings.IsPrefix(prefix, t) then Some(FirstLine(t[|prefix|..])) else None
  }

  function GetEnumTypeNameFromType(t: string): Option<string> { PrefixedName("enum:", t) }
  function GetStructTypeNameFromType(t: string): Option<string> { PrefixedName("struct:", t) }
  function GetArrayElementTypeFromType(t: string): Option<string> { PrefixedName("array:", t) }

  /** `type.match(/^enum:(.*)/) != null`, and likewise for struct and array. */
  predicate IsEnumType(t: string) { |t| >= 5 && t[..5] == "enum:" }
  predicate IsStructType(t: string) { |t| >= 7 && t[..7] == "struct:" }
  predicate IsArrayType(t: string) { |t| >= 6 && t[..6] == "array:" }
  predicate IsIntegerType(t: string) { t == "integer" }

  /** Each `is*Type` test holds exactly when the matching getter finds a name. */
  lemma TypeTestsAgree(t: string)
    ensures IsEnumType(t) <==> GetEnumTypeNameFromType(t).Some?
    ensures IsStructType(t) <==> GetStructTypeNameFromType(t).Some?
    ensures IsArrayType(t) <==> GetArrayElementTypeFromType(t).Some?
  {
  }

  /** A name without line terminators survives the round trip through its type string. */
  lemma {:induction false} TypeNameRoundTrip(n: string)
    requires forall i :: 0 <= i < |n| ==> !IsLineTerminator(n[i])
    ensures GetEnumTypeNameFromType("enum:" + n) == Some(n)
    ensures GetStructTypeNameFromType("struct:" + n) == Some(n)
    ensures GetArrayElementTypeFromType("array:" + n) == Some(n)
  {
    assert ("enum:" + n)[5..] == n;
    assert ("struct:" + n)[7..] == n;
    assert ("array:" + n)[6..] == n;
    FirstLineWhole(n);
  }

  lemma {:induction false} FirstLineWhole(n: string)
    requires forall i :: 0 <= i < |n| ==> !IsLineTerminator(n[i])
    ensures FirstLine(n) == n
  {
    if |n| > 0 {
      FirstLineWhole(n[1..]);
    }
  }

  /** The three prefixes exclude each other. */
  lemma TypeKindsExclusive(t: string)
    ensures !(IsEnumType(t) && IsStructType(t))
    ensures !(IsEnumType(t) && IsArrayType(t))
    ensures !(IsStructType(t) && IsArrayType(t))
  {
    if IsEnumType(t) { assert t[0] == 'e'; }
    if IsStructType(t) { assert t[0] == 's'; }
  }

  // ---------------------------------------------------------------------------
  // Legacy type migration

  /** `v == word` for a string `word`: only a string value can equal it (None: an object, not modelled). */
  function EqualsWord(v: Value, word: string): Option<bool>
  {
    match v
    case Str(s) => Some(s == word)
    case Arr(_) => None
    case Obj(_) => None
    case _ => Some(false)
  }

  /**
   * `migrateType`: a legacy "list" type becomes "array", and a legacy
   * "struct" or "enum" type takes its name from the auxiliary `structure` or
   * `enum` field, which is deleted. `modelled` is false, and nothing
   * changes, where the answer depends on an object's text.
   */
  method MigrateType(obj: JsObject) returns (modelled: bool)
    modifies obj
    ensures var t := FieldOf(old(obj.fields), "type");
      var isList, isStruct, isEnum := EqualsWord(t, "list"), EqualsWord(t, "struct"), EqualsWord(t, "enum");
      var structText, enumText := TemplateText(FieldOf(old(obj.fields), "structure")), TemplateText(FieldOf(old(obj.fields), "enum"));
      if isList.None? then !modelled && obj.fields == old(obj.fields)
      else if isList.value then modelled && obj.fields == old(obj.fields)["type" := Str("array")]
      else if isStruct.value then
        if structText.None? then !modelled && obj.fields == old(obj.fields)
        else modelled && obj.fields == (old(obj.fields) - {"structure"})["type" := Str("struct:" + structText.value)]
      else if isEnum.value then
        if enumText.None? then !modelled && obj.fields == old(obj.fields)
        else modelled && obj.fields == (old(obj.fields) - {"enum"})["type" := Str("enum:" + enumText.value)]
      else modelled && obj.fields == old(obj.fields)
  {
    var t := FieldOf(obj.fields, "type");
    var isList := EqualsWord(t, "list");
    if isList.None? {
      return false;
    }
    if isList.value {
      obj.fields := obj.fields["type" := Str("array")];
    } else if EqualsWord(t, "struct").value {
      var text := TemplateText(FieldOf(obj.fields, "structure"));
      if text.None? {
        return false;
      }
      obj.fields := (obj.fields - {"structure"})["type" := Str("struct:" + text.value)];
    } else if EqualsWord(t, "enum").value {
      var text := TemplateText(FieldOf(obj.fields, "enum"));
      if text.None? {
        return false;
      }
      obj.fields := (obj.fields - {"enum"})["type" := Str("enum:" + text.value)];
    }
    return true;
  }

  /** A migrated struct or enum type names its structure or enum through the prefix getters. */
  lemma MigratedTypeNames(n: string)
    requires forall i :: 0 <= i < |n| ==> !IsLineTerminator(n[i])
    ensures IsStructType("struct:" + n) && GetStructTypeNameFromType("struct:" + n) == Some(n)
    ensures IsEnumType("enum:" + n) && GetEnumTypeNameFromType("enum:" + n) == Some(n)
    ensures !IsArrayType("struct:" + n) && !IsArrayType("enum:" + n)
  {
    TypeNameRoundTrip(n);
    assert ("struct:" + n)[..7] == "struct:";
    assert ("enum:" + n)[..5] == "enum:";
    TypeKindsExclusive("struct:" + n);
    TypeKindsExclusive("enum:" + n);
  }

  // ---------------------------------------------------------------------------
  // Lookup tables keyed by name

  /** The map a `for ... map.set(x.name, x)` loop builds: a later entry with the same name replaces an earlier one. */
  function ByName<T>(items: seq<T>, key: T -> string): map<string, T>
  {
    if |items| == 0 then map[]
    else ByName(items[..|items| - 1], key)[key(items[|items| - 1]) := items[|items| - 1]]
  }

  /** The table holds exactly the names that occur, each bound to its last occurrence. */
  lemma {:induction false} ByNameLastWins<T>(items: seq<T>, key: T -> string, i: nat)
    requires i < |items|
    requires forall j :: i < j < |items| ==> key(items[j]) != key(items[i])
    ensures key(items[i]) in ByName(items, key)
    ensures ByName(items, key)[key(items[i])] == items[i]
  {
    if i < |items| - 1 {
      var prefix := items[..|items| - 1];
      assert forall j :: i < j < |prefix| ==> prefix[j] == items[j];
      ByNameLastWins(prefix, key, i);
    }
  }

  lemma {:induction false} ByNameKeys<T>(items: seq<T>, key: T -> string, name: string)
    ensures name in ByName(items, key) <==> exists j :: 0 <= j < |items| && key(items[j]) == name
  {
    if |items| > 0 {
      var prefix := items[..|items| - 1];
      ByNameKeys(prefix, key, name);
      assert forall j :: 0 <= j < |prefix| ==> prefix[j] == items[j];
    }
  }

  /** The loop itself. */
  method IndexByName<T>(items: seq<T>, key: T -> string) returns (m: map<string, T>)
    ensures m == ByName(items, key)
  {
    m := map[];
    var i := 0;
    while i < |items|
      invariant 0 <= i <= |items|
      invariant m == ByName(items[..i], key)
    {
      assert items[..i + 1][..i] == items[..i];
      m := m[key(items[i]) := items[i]];
      i := i + 1;
    }
    assert items[..i] == items;
  }

  function VariableName(v: Variable): string { v.name }
  function StructureName(s: Structure): string { s.name }
  function EnumName(e: Enum): string { e.name }
  function MemberName(m: EnumMember): string { m.name }

  /** The enums and structures of a project by name, as the getters below build them. */
  function EnumTable(p: ProjectVariables): map<string, Enum> { ByName(p.enums, EnumName) }
  function StructTable(p: ProjectVariables): map<string, Structure> { ByName(p.structures, StructureName) }

  /** `ProjectVariables.enumsMap`. */
  method EnumsMap(p: ProjectVariables) returns (m: map<string, Enum>)
    ensures m == EnumTable(p)
    ensures forall e :: e in p.enums ==> e.name in m
    ensures forall name :: name in m ==> m[name] in p.enums && m[name].name == name
  {
    m := IndexByName(p.enums, EnumName);
    ByNameFacts(p.enums, EnumName);
  }

  /** `ProjectVariables.structsMap`. */
  method StructsMap(p: ProjectVariables) returns (m: map<string, Structure>)
    ensures m == StructTable(p)
    ensures forall s :: s in p.structures ==> s.name in m
    ensures forall name :: name in m ==> m[name] in p.structures && m[name].name == name
  {
    m := IndexByName(p.structures, StructureName);
    ByNameFacts(p.structures, StructureName);
  }

  /** `Enum.membersMap`. */
  method MembersMap(e: Enum) returns (m: map<string, EnumMember>)
    ensures m == ByName(e.members, MemberName)
    ensures forall x :: x in e.members ==> x.name in m
    ensures forall name :: name in m ==> m[name] in e.members && m[name].name == name
  {
    m := IndexByName(e.members, MemberName);
    ByNameFacts(e.members, MemberName);
  }

  /** Every item's name is a key, and every key is bound to an item carrying it. */
  lemma {:induction false} ByNameFacts<T>(items: seq<T>, key: T -> string)
    ensures forall x :: x in items ==> key(x) in ByName(items, key)
    ensures forall name :: name in ByName(items, key) ==>
      ByName(items, key)[name] in items && key(ByName(items, key)[name]) == name
  {
    if |items| > 0 {
      var prefix := items[..|items| - 1];
      ByNameFacts(prefix, key);
      assert items == prefix + [items[|items| - 1]];
    }
  }
}

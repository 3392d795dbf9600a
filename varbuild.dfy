/**
 * The build of a project's global variables into C source sections: which
 * variables the build configuration keeps, the `DataEnum` enumeration, the
 * data function declarations and the table of data functions.
 */
module VariableBuild {
  import opened Wrappers
  import opened Strings
  import opened CodeGen

  /** A global variable and the build configurations it is restricted to, if any. */
  datatype Variable = Variable(name: string, usedIn: Option<seq<string>>)

  /** An import directive: the global variables of the imported project, once it is loaded. */
  datatype ImportDirective = ImportDirective(project: Option<seq<Variable>>)

  /** Kept when there is no configuration, no restriction, or the restriction names the configuration. */
  predicate UsedIn(v: Variable, configuration: Option<string>)
  {
    configuration.None? || v.usedIn.None? || configuration.value in v.usedIn.value
  }

  /** `filter` with `UsedIn`. */
  function Kept(vs: seq<Variable>, configuration: Option<string>): (r: seq<Variable>)
    ensures |r| <= |vs|
  {
    if |vs| == 0 then []
    else (if UsedIn(vs[0], configuration) then [vs[0]] else []) + Kept(vs[1..], configuration)
  }

  /** The kept variables of every loaded import, in import order. */
  function ImportedVariables(imports: seq<ImportDirective>, configuration: Option<string>): seq<Variable>
  {
    if |imports| == 0 then []
    else
      var project := imports[|imports| - 1].project;
      ImportedVariables(imports[..|imports| - 1], configuration)
      + (if project.Some? then Kept(project.value, configuration) else [])
  }

  /** The project's own kept variables, then each import's. */
  function ProjectVariables(globals: seq<Variable>, imports: seq<ImportDirective>, configuration: Option<string>): seq<Variable>
  {
    Kept(globals, configuration) + ImportedVariables(imports, configuration)
  }

  /** The filter loop of `build`. */
  method CollectVariables(globals: seq<Variable>, imports: seq<ImportDirective>, configuration: Option<string>)
    returns (projectVariables: seq<Variable>)
    ensures projectVariables == ProjectVariables(globals, imports, configuration)
  {
    projectVariables := Kept(globals, configuration);
    var i := 0;
    while i < |imports|
      invariant 0 <= i <= |imports|
      invariant projectVariables == Kept(globals, configuration) + ImportedVariables(imports[..i], configuration)
    {
      var project := imports[i].project;
      if project.Some? {
        projectVariables := projectVariables + Kept(project.value, configuration);
      }
      assert imports[..i + 1][..i] == imports[..i];
      i := i + 1;
    }
    assert imports[..i] == imports;
  }

  lemma {:induction false} KeptMembers(vs: seq<Variable>, configuration: Option<string>)
    ensures forall v :: v in Kept(vs, configuration) <==> v in vs && UsedIn(v, configuration)
  {
    if |vs| > 0 {
      KeptMembers(vs[1..], configuration);
      assert vs == [vs[0]] + vs[1..];
    }
  }

  lemma {:induction false} KeptAll(vs: seq<Variable>)
    ensures Kept(vs, None) == vs
  {
    if |vs| > 0 {
      KeptAll(vs[1..]);
      assert vs == [vs[0]] + vs[1..];
    }
  }

  /** The variables some loaded import brings, whatever the configuration. */
  ghost predicate Imported(v: Variable, imports: seq<ImportDirective>)
  {
    exists k :: 0 <= k < |imports| && imports[k].project.Some? && v in imports[k].project.value
  }

  lemma {:induction false} ImportedMembers(imports: seq<ImportDirective>, configuration: Option<string>)
    ensures forall v :: v in ImportedVariables(imports, configuration) <==> Imported(v, imports) && UsedIn(v, configuration)
  {
    if |imports| > 0 {
      var front := imports[..|imports| - 1];
      var project := imports[|imports| - 1].project;
      ImportedMembers(front, configuration);
      if project.Some? {
        KeptMembers(project.value, configuration);
      }
      forall v ensures Imported(v, imports) <==> Imported(v, front) || (project.Some? && v in project.value) {
        if Imported(v, imports) {
          var k :| 0 <= k < |imports| && imports[k].project.Some? && v in imports[k].project.value;
          if k < |front| {
            assert front[k] == imports[k];
          }
        }
        if Imported(v, front) {
          var k :| 0 <= k < |front| && front[k].project.Some? && v in front[k].project.value;
          assert imports[k] == front[k];
        }
      }
    }
  }

  /**
   * A variable reaches the build exactly when it is the project's own or a
   * loaded import's, and its restriction admits the configuration.
   */
  lemma ProjectVariablesMembers(globals: seq<Variable>, imports: seq<ImportDirective>, configuration: Option<string>, v: Variable)
    ensures v in ProjectVariables(globals, imports, configuration)
        <==> (v in globals || Imported(v, imports)) && UsedIn(v, configuration)
  {
    KeptMembers(globals, configuration);
    ImportedMembers(imports, configuration);
  }

  /** The project's own variables lead the list, in their own order. */
  lemma OwnVariablesFirst(globals: seq<Variable>, imports: seq<ImportDirective>, configuration: Option<string>)
    ensures var r := ProjectVariables(globals, imports, configuration);
      var own := Kept(globals, configuration);
      |own| <= |r| && r[..|own|] == own
  {
  }

  /** Every import's variables, in import order. */
  function AllImported(imports: seq<ImportDirective>): seq<Variable>
  {
    if |imports| == 0 then []
    else
      var project := imports[|imports| - 1].project;
      AllImported(imports[..|imports| - 1]) + (if project.Some? then project.value else [])
  }

  /** Without a build configuration nothing is filtered out. */
  lemma {:induction false} NoConfigurationKeepsAll(globals: seq<Variable>, imports: seq<ImportDirective>)
    ensures ProjectVariables(globals, imports, None) == globals + AllImported(imports)
  {
    KeptAll(globals);
    ImportedAll(imports);
  }

  lemma {:induction false} ImportedAll(imports: seq<ImportDirective>)
    ensures ImportedVariables(imports, None) == AllImported(imports)
  {
    if |imports| > 0 {
      ImportedAll(imports[..|imports| - 1]);
      var project := imports[|imports| - 1].project;
      if project.Some? {
        KeptAll(project.value);
      }
    }
  }

  // ---------------------------------------------------------------------------
  // The sections

  /** `buildDataEnum`. */
  function DataEnum(c: Conventions, vs: seq<Variable>): string
  {
    EnumDeclaration("DataEnum", DataEnumLines(c, vs))
  }

  function DataEnumLines(c: Conventions, vs: seq<Variable>): (r: seq<string>)
    ensures |r| == |vs| + 1
  {
    EnumLines(c.tab, "DATA_ID_NONE", seq(|vs|, i requires 0 <= i < |vs| => c.getName("DATA_ID_", vs[i].name, UnderscoreUpperCase)))
  }

  /**
   * `DATA_ID_NONE = 0` comes first and the i-th variable's identifier gets
   * the value i+1; read line by line, the text is the header, each member
   * line with a comma except the last, and the closing line.
   */
  lemma DataEnumMembers(c: Conventions, vs: seq<Variable>)
    requires SingleLine(c)
    ensures var lines := DataEnumLines(c, vs);
      && lines[0] == EnumMember(c.tab, "DATA_ID_NONE", 0)
      && (forall i :: 0 <= i < |vs| ==> lines[i + 1] == EnumMember(c.tab, c.getName("DATA_ID_", vs[i].name, UnderscoreUpperCase), i + 1))
      && Split(DataEnum(c, vs), '\n') == [EnumHeader("DataEnum")] + Terminated(lines, ",") + ["};"]
  {
    var idents := seq(|vs|, i requires 0 <= i < |vs| => c.getName("DATA_ID_", vs[i].name, UnderscoreUpperCase));
    forall k | 0 <= k < |idents| ensures '\n' !in idents[k] {
      assert idents[k] == c.getName("DATA_ID_", vs[k].name, UnderscoreUpperCase);
    }
    EnumLinesSingle(c.tab, "DATA_ID_NONE", idents);
    EnumDeclarationLines("DataEnum", DataEnumLines(c, vs));
  }

  // The long fixed texts are written in pieces of at most thirty characters.
  const DataFuncParameters := "(DataOperationEnum operation, " + "const WidgetCursor &cursor, " + "Value &value);"

  const DataNoneDecl := "void data_none" + DataFuncParameters

  /** The declaration of the data function of one variable. */
  function DataFuncDecl(c: Conventions, v: Variable): string
  {
    "void " + c.getName("data_", v.name, UnderscoreLowerCase) + DataFuncParameters
  }

  /** The fixed texts of the sections hold no line break. */
  lemma ParametersSingleLine()
    ensures '\n' !in DataFuncParameters
  {
  }

  lemma NoneDeclSingleLine()
    ensures '\n' !in DataNoneDecl
  {
    ParametersSingleLine();
  }

  lemma ArrayHeaderSingleLine()
    ensures '\n' !in DataArrayHeader
  {
  }

  function DataFuncDecls(c: Conventions, vs: seq<Variable>): (r: seq<string>)
    ensures |r| == |vs| + 1
  {
    [DataNoneDecl] + seq(|vs|, i requires 0 <= i < |vs| => DataFuncDecl(c, vs[i]))
  }

  /** `buildDataFuncsDecl`. */
  function DataFuncsDecl(c: Conventions, vs: seq<Variable>): string
  {
    Join(DataFuncDecls(c, vs), "\n")
  }

  /** Read line by line, the declarations are `data_none`'s, then one per variable in order. */
  lemma DataFuncsDeclLines(c: Conventions, vs: seq<Variable>)
    requires SingleLine(c)
    ensures var lines := Split(DataFuncsDecl(c, vs), '\n');
      && |lines| == |vs| + 1 && lines[0] == DataNoneDecl
      && forall i :: 0 <= i < |vs| ==> lines[i + 1] == DataFuncDecl(c, vs[i])
  {
    var decls := DataFuncDecls(c, vs);
    NoneDeclSingleLine();
    ParametersSingleLine();
    forall k | 0 <= k < |decls| ensures '\n' !in decls[k] {
      if k > 0 {
        assert decls[k] == DataFuncDecl(c, vs[k - 1]);
      }
    }
    SplitJoin(decls, '\n');
  }

  const DataArrayDecl := "typedef void (*DataOperationsFunction)(DataOperationEnum operation, const WidgetCursor &widgetCursor, Value &value);\n\nextern DataOperationsFunction g_dataOperationsFunctions[];"

  function DataArrayEntries(c: Conventions, vs: seq<Variable>): (r: seq<string>)
    ensures |r| == |vs|
  {
    seq(|vs|, i requires 0 <= i < |vs| => c.tab + c.getName("data_", vs[i].name, UnderscoreLowerCase))
  }

  /** `buildDataArrayDef`. */
  function DataArrayDef(c: Conventions, vs: seq<Variable>): string
  {
    DataArrayHeader + "\n" + c.tab + "data_none,\n"
    + Join(DataArrayEntries(c, vs), ",\n") + "\n};"
  }

  const DataArrayHeader := "DataOperationsFunction " + "g_dataOperationsFunctions[] = {"

  /** The lines after `data_none`'s: the entries, each with a comma except the last, or one empty line. */
  function ArrayBodyLines(c: Conventions, vs: seq<Variable>): seq<string>
  {
    if |vs| == 0 then [""] else Terminated(DataArrayEntries(c, vs), ",")
  }

  lemma ArrayDefShape(tab: string, body: string)
    ensures DataArrayHeader + "\n" + tab + "data_none,\n" + body + "\n};"
         == DataArrayHeader + "\n" + ((tab + "data_none,") + "\n" + body) + "\n" + "};"
  {
    assert "data_none,\n" == "data_none," + "\n" && "\n};" == "\n" + "};";
  }

  lemma ArrayBodyText(c: Conventions, vs: seq<Variable>)
    ensures Join(DataArrayEntries(c, vs), ",\n") == Join(ArrayBodyLines(c, vs), "\n")
  {
    if |vs| >= 1 {
      JoinTerminated(DataArrayEntries(c, vs), ",");
      assert "," + "\n" == ",\n";
    }
  }

  lemma DataArrayDefText(c: Conventions, vs: seq<Variable>)
    ensures DataArrayDef(c, vs)
         == Join([DataArrayHeader] + ([c.tab + "data_none,"] + ArrayBodyLines(c, vs)) + ["};"], "\n")
  {
    var none, rest := c.tab + "data_none,", ArrayBodyLines(c, vs);
    ArrayBodyText(c, vs);
    ArrayDefShape(c.tab, Join(rest, "\n"));
    assert ([none] + rest)[1..] == rest;
    assert Join([none] + rest, "\n") == none + "\n" + Join(rest, "\n");
    FramedJoin(DataArrayHeader, [none] + rest, "};");
  }

  /**
   * Read line by line, the table is its header, `data_none`, then one entry
   * per variable in order, each with a comma except the last, and the
   * closing line; without variables an empty line stands before the
   * closing line.
   */
  lemma DataArrayDefLines(c: Conventions, vs: seq<Variable>)
    requires SingleLine(c)
    ensures Split(DataArrayDef(c, vs), '\n') == [DataArrayHeader, c.tab + "data_none,"] + ArrayBodyLines(c, vs) + ["};"]
    ensures forall i :: 0 <= i < |vs| ==> DataArrayEntries(c, vs)[i] == c.tab + c.getName("data_", vs[i].name, UnderscoreLowerCase)
  {
    var none, rest := c.tab + "data_none,", ArrayBodyLines(c, vs);
    ArrayLinesSingle(c, vs);
    ArrayHeaderSingleLine();
    DataArrayDefText(c, vs);
    SplitFramed(DataArrayHeader, [none] + rest, "};");
    assert [DataArrayHeader] + ([none] + rest) + ["};"] == [DataArrayHeader, none] + rest + ["};"];
  }

  lemma ArrayLinesSingle(c: Conventions, vs: seq<Variable>)
    requires SingleLine(c)
    ensures var lines := [c.tab + "data_none,"] + ArrayBodyLines(c, vs);
      forall k :: 0 <= k < |lines| ==> '\n' !in lines[k]
  {
    var none, rest := c.tab + "data_none,", ArrayBodyLines(c, vs);
    var entries := DataArrayEntries(c, vs);
    forall k | 0 <= k < |entries| ensures '\n' !in entries[k] {
      assert entries[k] == c.tab + c.getName("data_", vs[k].name, UnderscoreLowerCase);
    }
    TerminatedSingle(entries, ",");
    assert "data_none," == "data_none" + ",";
    forall k | 0 <= k < |[none] + rest| ensures '\n' !in ([none] + rest)[k] {
      if k > 0 {
        assert ([none] + rest)[k] == rest[k - 1];
      }
    }
  }

  // ---------------------------------------------------------------------------
  // build

  /** The four sections of the variables' build output. */
  datatype Section = DataEnumSection | DataFuncsDeclSection | DataArrayDeclSection | DataArrayDefSection

  /** The name a caller requests a section by. */
  function SectionName(section: Section): string
  {
    match section
    case DataEnumSection => "DATA_ENUM"
    case DataFuncsDeclSection => "DATA_FUNCS_DECL"
    case DataArrayDeclSection => "DATA_ARRAY_DECL"
    case DataArrayDefSection => "DATA_ARRAY_DEF"
  }

  /** All sections are built when no names are given, otherwise the named ones. */
  predicate Requested(sectionNames: Option<seq<string>>, section: Section)
  {
    sectionNames.None? || SectionName(section) in sectionNames.value
  }

  /** The text of one section. */
  function SectionText(c: Conventions, vs: seq<Variable>, section: Section): string
  {
    match section
    case DataEnumSection => DataEnum(c, vs)
    case DataFuncsDeclSection => DataFuncsDecl(c, vs)
    case DataArrayDeclSection => DataArrayDecl
    case DataArrayDefSection => DataArrayDef(c, vs)
  }

  /** `build`: the requested sections of the kept variables. */
  method Build(globals: seq<Variable>, imports: seq<ImportDirective>, configuration: Option<string>,
               sectionNames: Option<seq<string>>, c: Conventions)
    returns (result: map<Section, string>)
    ensures forall section :: section in result <==> Requested(sectionNames, section)
    ensures forall section :: section in result ==>
      result[section] == SectionText(c, ProjectVariables(globals, imports, configuration), section)
  {
    var projectVariables := CollectVariables(globals, imports, configuration);
    result := map[];
    if Requested(sectionNames, DataEnumSection) {
      result := result[DataEnumSection := DataEnum(c, projectVariables)];
    }
    if Requested(sectionNames, DataFuncsDeclSection) {
      result := result[DataFuncsDeclSection := DataFuncsDecl(c, projectVariables)];
    }
    if Requested(sectionNames, DataArrayDeclSection) {
      result := result[DataArrayDeclSection := DataArrayDecl];
    }
    if Requested(sectionNames, DataArrayDefSection) {
      result := result[DataArrayDefSection := DataArrayDef(c, projectVariables)];
    }
    forall section ensures section in result <==> Requested(sectionNames, section) {
      match section {
        case DataEnumSection =>
        case DataFuncsDeclSection =>
        case DataArrayDeclSection =>
        case DataArrayDefSection =>
      }
    }
  }
}

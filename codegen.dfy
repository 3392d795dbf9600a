/**
 * The C source text the build emits for enumerations, shared by the data
 * and bitmap sections: one `NAME = value` member per line, members
 * separated by ",\n", wrapped in `enum Name {` … `};`.
 *
 * The indentation constant and `getName` (which turns an object's name into
 * a C identifier with a prefix and a naming convention) are not part of
 * this model; they are parameters.
 */
module CodeGen {
  import opened Wrappers
  import opened Strings

  datatype Naming = UnderscoreUpperCase | UnderscoreLowerCase

  /** The build's `TAB` and `getName(prefix, object, naming)`. */
  datatype Conventions = Conventions(tab: string, getName: (string, string, Naming) -> string)

  /** Neither the indentation nor any generated identifier contains a line break. */
  ghost predicate SingleLine(c: Conventions)
  {
    '\n' !in c.tab && forall p, n, k :: '\n' !in c.getName(p, n, k)
  }

  /** `${TAB}${ident} = ${value}`. */
  function EnumMember(tab: string, ident: string, value: int): string
  {
    tab + ident + " = " + IntToString(value)
  }

  /** The member lines: `noneIdent = 0` first, then the i-th identifier with value i+1. */
  function EnumLines(tab: string, noneIdent: string, idents: seq<string>): (r: seq<string>)
    ensures |r| == |idents| + 1
    ensures r[0] == EnumMember(tab, noneIdent, 0)
    ensures forall i :: 0 <= i < |idents| ==> r[i + 1] == EnumMember(tab, idents[i], i + 1)
  {
    [EnumMember(tab, noneIdent, 0)] + seq(|idents|, i requires 0 <= i < |idents| => EnumMember(tab, idents[i], i + 1))
  }

  function EnumHeader(name: string): string
  {
    "enum " + name + " {"
  }

  /** `enum ${name} {\n${lines.join(",\n")}\n};`. */
  function EnumDeclaration(name: string, lines: seq<string>): string
  {
    EnumHeader(name) + "\n" + Join(lines, ",\n") + "\n};"
  }

  /** Every line but the last with `mark` appended. */
  function Terminated(lines: seq<string>, mark: string): (r: seq<string>)
    ensures |r| == |lines|
    ensures forall i :: 0 <= i < |lines| - 1 ==> r[i] == lines[i] + mark
    ensures |lines| > 0 ==> r[|lines| - 1] == lines[|lines| - 1]
  {
    if |lines| <= 1 then lines else [lines[0] + mark] + Terminated(lines[1..], mark)
  }

  /** Joining with `mark` and a line break is joining the terminated lines with a line break. */
  lemma {:induction false} JoinTerminated(lines: seq<string>, mark: string)
    ensures Join(lines, mark + "\n") == Join(Terminated(lines, mark), "\n")
  {
    if |lines| > 1 {
      JoinTerminated(lines[1..], mark);
      JoinTerminatedStep(lines, mark);
    }
  }

  lemma JoinTerminatedStep(lines: seq<string>, mark: string)
    requires |lines| > 1
    requires Join(lines[1..], mark + "\n") == Join(Terminated(lines[1..], mark), "\n")
    ensures Join(lines, mark + "\n") == Join(Terminated(lines, mark), "\n")
  {
    var t := Terminated(lines[1..], mark);
    var head := [lines[0] + mark];
    assert Terminated(lines, mark) == head + t;
    assert (head + t)[1..] == t;
    assert Join(head + t, "\n") == (lines[0] + mark) + "\n" + Join(t, "\n");
    var rest := Join(lines[1..], mark + "\n");
    assert Join(lines, mark + "\n") == lines[0] + (mark + "\n") + rest;
    ConcatRegroup(lines[0], mark, "\n", rest);
  }

  lemma ConcatRegroup(a: string, b: string, c: string, d: string)
    ensures a + (b + c) + d == (a + b) + c + d
  {
  }

  /** The value written after the member's ` = ` reads back as that value. */
  lemma EnumMemberValue(tab: string, ident: string, value: int)
    ensures var m := EnumMember(tab, ident, value);
      |tab + ident + " = "| <= |m| && ParseInt(m[|tab + ident + " = "|..]) == Some(value)
  {
    var m := EnumMember(tab, ident, value);
    assert m[|tab + ident + " = "|..] == IntToString(value);
    ParseIntRoundTrip(value);
  }

  /** Text made of a header line, some lines and a closing line, joined by line breaks. */
  lemma FramedJoin(header: string, lines: seq<string>, footer: string)
    requires |lines| >= 1
    ensures Join([header] + lines + [footer], "\n") == header + "\n" + Join(lines, "\n") + "\n" + footer
  {
    JoinAppend([header] + lines, footer, "\n");
    assert ([header] + lines)[1..] == lines;
  }

  lemma TerminatedSingle(lines: seq<string>, mark: string)
    requires '\n' !in mark
    requires forall k :: 0 <= k < |lines| ==> '\n' !in lines[k]
    ensures forall k :: 0 <= k < |lines| ==> '\n' !in Terminated(lines, mark)[k]
  {
    var t := Terminated(lines, mark);
    forall k | 0 <= k < |lines| ensures '\n' !in t[k] {
      if k < |lines| - 1 {
        assert t[k] == lines[k] + mark;
      }
    }
  }

  /** Reading lines back from text joined by line breaks gives the header, the lines and the footer. */
  lemma SplitFramed(header: string, lines: seq<string>, footer: string)
    requires '\n' !in header && '\n' !in footer
    requires forall k :: 0 <= k < |lines| ==> '\n' !in lines[k]
    ensures Split(Join([header] + lines + [footer], "\n"), '\n') == [header] + lines + [footer]
  {
    var parts := [header] + lines + [footer];
    forall k | 0 <= k < |parts| ensures '\n' !in parts[k] {
      if 0 < k < |parts| - 1 {
        assert parts[k] == lines[k - 1];
      }
    }
    SplitJoin(parts, '\n');
  }

  lemma DeclarationShape(name: string, body: string)
    ensures EnumHeader(name) + "\n" + body + "\n};" == EnumHeader(name) + "\n" + body + "\n" + "};"
    ensures '\n' !in name ==> '\n' !in EnumHeader(name)
  {
    assert " {\n" == " {" + "\n" && "\n};" == "\n" + "};";
  }

  /** A declaration is its header, its terminated member lines and its closing line, joined by line breaks. */
  lemma DeclarationAsLines(name: string, lines: seq<string>)
    requires |lines| >= 1
    ensures EnumDeclaration(name, lines) == Join([EnumHeader(name)] + Terminated(lines, ",") + ["};"], "\n")
  {
    var t := Terminated(lines, ",");
    JoinTerminated(lines, ",");
    assert "," + "\n" == ",\n";
    DeclarationShape(name, Join(t, "\n"));
    FramedJoin(EnumHeader(name), t, "};");
  }

  /**
   * Read line by line, a declaration is its header, each member line
   * followed by a comma except the last, and the closing line.
   */
  lemma EnumDeclarationLines(name: string, lines: seq<string>)
    requires |lines| >= 1 && '\n' !in name
    requires forall k :: 0 <= k < |lines| ==> '\n' !in lines[k]
    ensures Split(EnumDeclaration(name, lines), '\n') == [EnumHeader(name)] + Terminated(lines, ",") + ["};"]
  {
    DeclarationAsLines(name, lines);
    DeclarationShape(name, "");
    TerminatedSingle(lines, ",");
    SplitFramed(EnumHeader(name), Terminated(lines, ","), "};");
  }

  /** No member line of an enumeration built from single-line conventions breaks. */
  lemma EnumLinesSingle(tab: string, noneIdent: string, idents: seq<string>)
    requires '\n' !in tab && '\n' !in noneIdent
    requires forall k :: 0 <= k < |idents| ==> '\n' !in idents[k]
    ensures forall k :: 0 <= k < |idents| + 1 ==> '\n' !in EnumLines(tab, noneIdent, idents)[k]
  {
    var lines := EnumLines(tab, noneIdent, idents);
    forall k | 0 <= k < |idents| + 1 ensures '\n' !in lines[k] {
      if k == 0 {
        MemberSingleLine(tab, noneIdent, 0);
      } else {
        MemberSingleLine(tab, idents[k - 1], k);
      }
    }
  }

  lemma MemberSingleLine(tab: string, ident: string, value: int)
    requires '\n' !in tab && '\n' !in ident
    ensures '\n' !in EnumMember(tab, ident, value)
  {
    if value < 0 {
      DecimalDigitsAreDigits(-value);
    } else {
      DecimalDigitsAreDigits(value);
    }
  }
}

/** `resinfo`: the residue table is filtered from cpptraj's atom-info
    listing. Each line is split on whitespace runs; field 1 (the site) and
    field 2 (the residue name) are kept when field 2 is one of the 20 standard
    amino-acid codes or a histidine protonation variant, and written as
    `site<TAB>code<NEWLINE>`. The analyses read this file back as a
    tab-separated table and use its second column as the residue type. */
module ResInfo {
  import opened TextUtil

  /** The 23 residue names the filter accepts. */
  predicate IsAminoCode(s: string) {
    s == "ALA" || s == "ARG" || s == "ASN" || s == "ASP" || s == "CYS" || s == "GLU"
    || s == "GLN" || s == "GLY" || s == "HIS" || s == "HIE" || s == "HID" || s == "HIP"
    || s == "ILE" || s == "LEU" || s == "LYS" || s == "MET" || s == "PHE" || s == "PRO"
    || s == "SER" || s == "THR" || s == "TRP" || s == "TYR" || s == "VAL"
  }

  datatype Residue = Residue(site: string, code: string)

  /** The residue a line contributes, if any. */
  function Record(line: string): Option<Residue> {
    var fields := SplitWs(line);
    if |fields| >= 3 && IsAminoCode(fields[2]) then Some(Residue(fields[1], fields[2])) else None
  }

  /** The residues of all lines, in line order. */
  function Records(lines: seq<string>): seq<Residue>
    decreases |lines|
  {
    if lines == [] then []
    else
      var kept := Records(lines[..|lines| - 1]);
      match Record(lines[|lines| - 1])
      case Some(r) => kept + [r]
      case None => kept
  }

  /** The text written for one residue. */
  function Line(r: Residue): string {
    r.site + "\t" + r.code + "\n"
  }

  /** The text written for a sequence of residues. */
  function Render(rs: seq<Residue>): string {
    if rs == [] then "" else Line(rs[0]) + Render(rs[1..])
  }

  /** The filter loop; the output file's contents are returned. */
  method Resinfo(lines: seq<string>) returns (out: string)
    ensures out == Render(Records(lines))
  {
    out := "";
    var x := 0;
    while x < |lines|
      invariant 0 <= x <= |lines|
      invariant out == Render(Records(lines[..x]))
    {
      RecordsStep(lines, x);
      var fields := SplitWs(lines[x]);
      if |fields| >= 3 {
        var site, value := fields[1], fields[2];
        if IsAminoCode(value) {
          RenderSnoc(Records(lines[..x]), Residue(site, value));
          ghost var before := out;
          out := out + site;
          out := out + "\t";
          out := out + value;
          out := out + "\n";
          assert out == before + Line(Residue(site, value));
        }
      }
      x := x + 1;
    }
    assert lines[..|lines|] == lines;
  }

  /** One more line adds its record, if any, at the end. */
  lemma RecordsStep(lines: seq<string>, x: nat)
    requires x < |lines|
    ensures Record(lines[x]).None? ==> Records(lines[..x + 1]) == Records(lines[..x])
    ensures Record(lines[x]).Some? ==> Records(lines[..x + 1]) == Records(lines[..x]) + [Record(lines[x]).value]
  {
    assert lines[..x + 1][..x] == lines[..x];
  }

  lemma {:induction false} RenderSnoc(rs: seq<Residue>, r: Residue)
    ensures Render(rs + [r]) == Render(rs) + Line(r)
  {
    if rs == [] {
      assert rs + [r] == [r];
    } else {
      assert (rs + [r])[1..] == rs[1..] + [r];
      RenderSnoc(rs[1..], r);
    }
  }

  /** Filtering distributes over concatenation of the input: order is kept
      and each line is judged on its own. */
  lemma {:induction false} RecordsAppend(a: seq<string>, b: seq<string>)
    ensures Records(a + b) == Records(a) + Records(b)
    decreases |b|
  {
    if b == [] {
      assert a + b == a;
    } else {
      var n := |b| - 1;
      assert (a + b)[..|a + b| - 1] == a + b[..n];
      assert (a + b)[|a + b| - 1] == b[n];
      RecordsAppend(a, b[..n]);
    }
  }

  /** A single line is kept exactly when it has at least three fields and
      field 2 is an accepted code, and then as (field 1, field 2). */
  lemma RecordsOne(line: string)
    ensures Records([line]) == (
      var f := SplitWs(line);
      if |f| >= 3 && IsAminoCode(f[2]) then [Residue(f[1], f[2])] else [])
  {
    assert [line][..0] == [];
  }

  /** Every kept residue comes from some line, and every line that passes
      the filter contributes its residue. */
  lemma {:induction false} RecordsMembers(lines: seq<string>)
    ensures forall r | r in Records(lines) :: exists i | 0 <= i < |lines| :: Record(lines[i]) == Some(r)
    ensures forall i | 0 <= i < |lines| :: Record(lines[i]).Some? ==> Record(lines[i]).value in Records(lines)
    decreases |lines|
  {
    if lines != [] {
      var n := |lines| - 1;
      RecordsMembers(lines[..n]);
      forall i | 0 <= i < n ensures lines[..n][i] == lines[i] { }
    }
  }

  /** A cpptraj listing line: indentation, the residue number, the residue
      name and further columns. Such a line yields (number, name) exactly
      when the name is an accepted code. */
  lemma CpptrajLine(indent: string, site: string, code: string, rest: string)
    requires indent != [] && forall i | 0 <= i < |indent| :: IsSpace(indent[i])
    requires site != [] && NoSpace(site) && code != [] && NoSpace(code)
    requires rest == [] || IsSpace(rest[0])
    ensures Record(indent + site + " " + code + rest) ==
      if IsAminoCode(code) then Some(Residue(site, code)) else None
  {
    var line := indent + site + " " + code + rest;
    assert line == indent + (site + " " + code + rest);
    LineFields(indent, site, code, rest);
    RecordOf(line, site, code);
  }

  /** The whitespace split of such a line: an empty piece for the
      indentation, then the residue number, then the residue name. */
  lemma LineFields(indent: string, site: string, code: string, rest: string)
    requires indent != [] && forall i | 0 <= i < |indent| :: IsSpace(indent[i])
    requires site != [] && NoSpace(site) && code != [] && NoSpace(code)
    requires rest == [] || IsSpace(rest[0])
    ensures var f := SplitWs(indent + (site + " " + code + rest));
      |f| >= 3 && f[1] == site && f[2] == code
  {
    var tail := site + " " + code + rest;
    assert tail[0] == site[0];
    DropIndent(indent, tail);
    TailFields(site, code, rest);
  }

  lemma TailFields(site: string, code: string, rest: string)
    requires site != [] && NoSpace(site) && code != [] && NoSpace(code)
    requires rest == [] || IsSpace(rest[0])
    ensures var f := SplitWs(site + " " + code + rest);
      |f| >= 2 && f[0] == site && f[1] == code
  {
    TwoWords(site, code, rest);
    WordEnd(code, rest);
  }

  lemma RecordOf(line: string, site: string, code: string)
    requires |SplitWs(line)| >= 3 && SplitWs(line)[1] == site && SplitWs(line)[2] == code
    ensures Record(line) == if IsAminoCode(code) then Some(Residue(site, code)) else None
  {
  }

  /** Two words separated by one blank split into the first word and the
      split of the rest. */
  lemma TwoWords(site: string, code: string, rest: string)
    requires NoSpace(site) && code != [] && !IsSpace(code[0])
    ensures SplitWs(site + " " + code + rest) == [site] + SplitWs(code + rest)
  {
    var x := code + rest;
    var after := [' '] + x;
    assert site + " " + code + rest == site + after;
    SplitWsWordPrefix(site, after);
    BlankThenWord(x);
    assert site + "" == site;
  }

  lemma BlankThenWord(x: string)
    requires x != [] && !IsSpace(x[0])
    ensures SplitWs([' '] + x) == [""] + SplitWs(x)
  {
    var a := [' '] + x;
    assert IsSpace(a[0]);
    assert a[1..] == x;
    assert DropSpaces(a) == DropSpaces(x);
  }

  /** A word followed by nothing or by whitespace is a whole first piece. */
  lemma WordEnd(code: string, rest: string)
    requires NoSpace(code)
    requires rest == [] || IsSpace(rest[0])
    ensures SplitWs(code + rest)[0] == code
  {
    SplitWsWordPrefix(code, rest);
    assert SplitWs(rest)[0] == "";
    assert code + "" == code;
  }

  lemma {:induction false} DropIndent(indent: string, tail: string)
    requires forall i | 0 <= i < |indent| :: IsSpace(indent[i])
    requires tail != [] && !IsSpace(tail[0])
    ensures DropSpaces(indent + tail) == tail
    ensures indent != [] ==> SplitWs(indent + tail) == [""] + SplitWs(tail)
    decreases |indent|
  {
    if indent == [] {
      assert indent + tail == tail;
    } else {
      assert (indent + tail)[1..] == indent[1..] + tail;
      DropIndent(indent[1..], tail);
    }
  }

  // ---------------------------------------------------------------------
  // Reading the file back: a tab-separated table without a header.

  /** The lines of the text that are not blank (blank lines are skipped). */
  function NonBlank(ls: seq<string>): seq<string> {
    if ls == [] then [] else (if ls[0] == "" then [] else [ls[0]]) + NonBlank(ls[1..])
  }

  function SplitRows(ls: seq<string>): seq<seq<string>> {
    if ls == [] then [] else [SplitOn(ls[0], '\t')] + SplitRows(ls[1..])
  }

  /** The rows of a tab-separated file read without a header. */
  function ReadTable(text: string): seq<seq<string>> {
    SplitRows(NonBlank(SplitOn(text, '\n')))
  }

  /** The table a sequence of residues is expected to read back as. */
  function Rows(rs: seq<Residue>): seq<seq<string>> {
    if rs == [] then [] else [[rs[0].site, rs[0].code]] + Rows(rs[1..])
  }

  /** The residue names, the column the analyses keep. */
  function Codes(rs: seq<Residue>): (cs: seq<string>)
    ensures |cs| == |rs| && forall i | 0 <= i < |rs| :: cs[i] == rs[i].code
  {
    if rs == [] then [] else [rs[0].code] + Codes(rs[1..])
  }

  predicate Clean(r: Residue) {
    r.code != "" && '\t' !in r.site && '\n' !in r.site && '\t' !in r.code && '\n' !in r.code
  }

  function Bodies(rs: seq<Residue>): seq<string> {
    if rs == [] then [] else [rs[0].site + "\t" + rs[0].code] + Bodies(rs[1..])
  }

  lemma {:induction false} SplitRender(rs: seq<Residue>)
    requires forall i | 0 <= i < |rs| :: Clean(rs[i])
    ensures SplitOn(Render(rs), '\n') == Bodies(rs) + [""]
  {
    if rs == [] {
    } else {
      var b := rs[0].site + "\t" + rs[0].code;
      assert '\n' !in b;
      SplitRender(rs[1..]);
      assert Render(rs) == b + ['\n'] + Render(rs[1..]);
      SplitAfterField(b, '\n', Render(rs[1..]));
    }
  }

  lemma {:induction false} ReadBodies(rs: seq<Residue>)
    requires forall i | 0 <= i < |rs| :: Clean(rs[i])
    ensures SplitRows(NonBlank(Bodies(rs) + [""])) == Rows(rs)
  {
    if rs != [] {
      var b := rs[0].site + "\t" + rs[0].code;
      var tailLines := Bodies(rs[1..]) + [""];
      assert Bodies(rs) + [""] == [b] + tailLines;
      assert b != "";
      assert NonBlank([b] + tailLines) == [b] + NonBlank(tailLines) by {
        assert ([b] + tailLines)[1..] == tailLines;
      }
      ReadBodies(rs[1..]);
      SplitLastField(rs[0].code, '\t');
      SplitAfterField(rs[0].site, '\t', rs[0].code);
      assert rs[0].site + "\t" + rs[0].code == rs[0].site + ['\t'] + rs[0].code;
      assert SplitOn(b, '\t') == [rs[0].site, rs[0].code];
      assert SplitRows([b] + NonBlank(tailLines)) == [SplitOn(b, '\t')] + SplitRows(NonBlank(tailLines)) by {
        assert ([b] + NonBlank(tailLines))[1..] == NonBlank(tailLines);
      }
    } else {
      assert NonBlank([""]) == [];
    }
  }

  /** The written file reads back as the (site, code) rows that were written,
      in order, provided no field holds a tab or a newline. */
  lemma ReadBackRendered(rs: seq<Residue>)
    requires forall i | 0 <= i < |rs| :: Clean(rs[i])
    ensures ReadTable(Render(rs)) == Rows(rs)
  {
    SplitRender(rs);
    ReadBodies(rs);
  }

  /** Every record the filter keeps is clean, so the file it writes always
      reads back as the records it kept. */
  lemma {:induction false} ResinfoReadsBack(lines: seq<string>)
    ensures ReadTable(Render(Records(lines))) == Rows(Records(lines))
  {
    RecordsClean(lines);
    ReadBackRendered(Records(lines));
  }

  lemma {:induction false} RecordsClean(lines: seq<string>)
    ensures forall i | 0 <= i < |Records(lines)| :: Clean(Records(lines)[i])
    decreases |lines|
  {
    if lines != [] {
      var n := |lines| - 1;
      RecordsClean(lines[..n]);
      var f := SplitWs(lines[n]);
      SplitWsPieces(lines[n]);
      if |f| >= 3 && IsAminoCode(f[2]) {
        assert NoSpace(f[1]) && NoSpace(f[2]);
        assert IsSpace('\t') && IsSpace('\n');
        assert Clean(Residue(f[1], f[2]));
      }
    }
  }
}

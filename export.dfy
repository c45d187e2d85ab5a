/** The ChimeraX files the comparisons write: an attribute file (`.dat`)
    with a fixed three-line header and one `\t:<pos>\t<value>` line per
    site, and a ten-line control file (`.ctl`) of tab-separated settings.
    In the `*sig` attribute files a site's value is zeroed unless the site
    is significant. A reader of the attribute format shows what the
    written text holds. */
module Export {
  import opened TextUtil
  import opened Frames
  import opened Divergence
  import opened Discrepancy

  /** The three maps: signed KL, significant signed KL, significant MMD. */
  datatype AttributeMap = KL | KLsig | MMDsig

  function AttrName(m: AttributeMap): string {
    match m
    case KL => "KL"
    case KLsig => "KLsig"
    case MMDsig => "MMDsig"
  }

  function Palette(m: AttributeMap): string {
    if m == MMDsig then "Greens-5" else "bluered"
  }

  // ---------------------------------------------------------------------
  // Text made of lines.

  /** The text of successive `write(line + "\n")` calls. */
  function LinesText(lines: seq<string>): string {
    if lines == [] then "" else lines[0] + "\n" + LinesText(lines[1..])
  }

  lemma {:induction false} LinesTextSnoc(lines: seq<string>, line: string)
    ensures LinesText(lines + [line]) == LinesText(lines) + line + "\n"
  {
    if lines == [] {
      assert [line][1..] == [];
    } else {
      assert (lines + [line])[1..] == lines[1..] + [line];
      LinesTextSnoc(lines[1..], line);
    }
  }

  /** Splitting newline-terminated lines at the newlines gives the lines
      and a last empty piece. */
  lemma {:induction false} SplitLines(lines: seq<string>)
    requires forall i | 0 <= i < |lines| :: '\n' !in lines[i]
    ensures SplitOn(LinesText(lines), '\n') == lines + [""]
  {
    if lines != [] {
      SplitLines(lines[1..]);
      SplitAfterField(lines[0], '\n', LinesText(lines[1..]));
      assert lines[0] + "\n" + LinesText(lines[1..]) == lines[0] + ['\n'] + LinesText(lines[1..]);
      assert lines == [lines[0]] + lines[1..];
    }
  }

  // ---------------------------------------------------------------------
  // Attribute files.

  /** `"\t:%s\t%s" % (x + 1, value)`. */
  function EntryLine(x: nat, value: string): string {
    "\t:" + NatToString(x + 1) + "\t" + value
  }

  function EntryLines(values: seq<string>, start: nat): (ls: seq<string>)
    ensures |ls| == |values|
    ensures forall i | 0 <= i < |values| :: ls[i] == EntryLine(start + i, values[i])
  {
    if values == [] then [] else [EntryLine(start, values[0])] + EntryLines(values[1..], start + 1)
  }

  /** `recipient: residues`, `attribute: <name>` and a blank line. */
  function Header(name: string): (ls: seq<string>)
    ensures |ls| == 3
  {
    ["recipient: residues", "attribute: " + name, ""]
  }

  function AttributeLines(name: string, values: seq<string>): seq<string> {
    Header(name) + EntryLines(values, 0)
  }

  /** The whole attribute file. */
  function AttributeText(name: string, values: seq<string>): string {
    LinesText(AttributeLines(name, values))
  }

  /** The value written for a significance map: the value itself at a
      "sig" site, `0.0` at an "ns" site. */
  function SigValues(values: seq<real>, labels: seq<Label>, fmt: real -> string): (vs: seq<string>)
    requires |labels| == |values|
    ensures |vs| == |values|
    ensures forall x | 0 <= x < |values| :: vs[x] == if labels[x] == Sig then fmt(values[x]) else "0.0"
  {
    if values == [] then [] else
      [if labels[0] == Sig then fmt(values[0]) else "0.0"] + SigValues(values[1..], labels[1..], fmt)
  }

  function Formatted(values: seq<real>, fmt: real -> string): (vs: seq<string>)
    ensures |vs| == |values| && forall x | 0 <= x < |values| :: vs[x] == fmt(values[x])
  {
    if values == [] then [] else [fmt(values[0])] + Formatted(values[1..], fmt)
  }

  /** The header then one line per site (`for x in range(n)`), the value
      of site `x` written as is. */
  method WriteValues(name: string, values: seq<real>, fmt: real -> string) returns (text: string)
    ensures text == AttributeText(name, Formatted(values, fmt))
  {
    var lines := Header(name);
    text := LinesText(lines);
    var x := 0;
    assert lines + EntryLines(Formatted(values, fmt)[..0], 0) == lines;
    while x < |values|
      invariant x <= |values|
      invariant text == LinesText(lines + EntryLines(Formatted(values, fmt)[..x], 0))
    {
      var line := EntryLine(x, fmt(values[x]));
      EntriesSnoc(lines, Formatted(values, fmt), x);
      text := text + line + "\n";
      x := x + 1;
    }
    assert Formatted(values, fmt)[..x] == Formatted(values, fmt);
  }

  /** The header then one line per site, the value of site `x` zeroed
      unless its label is "sig". */
  method WriteSignificant(name: string, values: seq<real>, labels: seq<Label>, n: nat, fmt: real -> string)
    returns (text: string)
    requires n <= |values| && n <= |labels|
    ensures text == AttributeText(name, SigValues(values[..n], labels[..n], fmt))
  {
    var lines := Header(name);
    ghost var vs := SigValues(values[..n], labels[..n], fmt);
    text := LinesText(lines);
    var x := 0;
    assert lines + EntryLines(vs[..0], 0) == lines;
    while x < n
      invariant x <= n
      invariant text == LinesText(lines + EntryLines(vs[..x], 0))
    {
      var value := if labels[x] == Sig then fmt(values[x]) else "0.0";
      assert value == vs[x];
      EntriesSnoc(lines, vs, x);
      text := text + EntryLine(x, value) + "\n";
      x := x + 1;
    }
    assert vs[..x] == vs;
  }

  lemma EntriesSnoc(header: seq<string>, vs: seq<string>, x: nat)
    requires x < |vs|
    ensures LinesText(header + EntryLines(vs[..x + 1], 0)) ==
            LinesText(header + EntryLines(vs[..x], 0)) + EntryLine(x, vs[x]) + "\n"
  {
    var a := EntryLines(vs[..x], 0);
    var b := EntryLines(vs[..x + 1], 0);
    assert b == a + [EntryLine(x, vs[x])];
    assert header + b == (header + a) + [EntryLine(x, vs[x])];
    LinesTextSnoc(header + a, EntryLine(x, vs[x]));
  }

  // ---------------------------------------------------------------------
  // Reading an attribute file back.

  /** One entry line: an empty field, `:` with the position, the value. */
  function ParseEntry(line: string): Option<(int, string)> {
    var fs := SplitOn(line, '\t');
    if |fs| == 3 && fs[0] == "" && |fs[1]| >= 1 && fs[1][0] == ':' && ParseInt(fs[1][1..]).Some? then
      Some((ParseInt(fs[1][1..]).value, fs[2]))
    else None
  }

  function ParseEntries(lines: seq<string>): Option<seq<(int, string)>> {
    if lines == [] then Some([])
    else
      var e := ParseEntry(lines[0]);
      var rest := ParseEntries(lines[1..]);
      if e.Some? && rest.Some? then Some([e.value] + rest.value) else None
  }

  /** The attribute name and the (position, value) entries of an attribute
      file, or None when it is not in the format. */
  function ReadAttributes(text: string): Option<(string, seq<(int, string)>)> {
    var ls := SplitOn(text, '\n');
    if |ls| >= 4 && ls[0] == "recipient: residues" && |ls[1]| >= 11 && ls[1][..11] == "attribute: " &&
       ls[2] == "" && ls[|ls| - 1] == "" then
      var es := ParseEntries(ls[3..|ls| - 1]);
      if es.Some? then Some((ls[1][11..], es.value)) else None
    else None
  }

  /** Positions 1, 2, ... with the given values. */
  function Numbered(values: seq<string>, start: nat): (es: seq<(int, string)>)
    ensures |es| == |values|
    ensures forall i | 0 <= i < |values| :: es[i] == (start + i + 1, values[i])
  {
    if values == [] then [] else [(start + 1, values[0])] + Numbered(values[1..], start + 1)
  }

  /** A value free of tabs and newlines. */
  predicate Plain(v: string) {
    '\t' !in v && '\n' !in v
  }

  /** Reading a written attribute file gives back its name and, in site
      order, position `x + 1` with the value of site `x`. */
  lemma ReadWritten(name: string, values: seq<string>)
    requires '\n' !in name
    requires forall i | 0 <= i < |values| :: Plain(values[i])
    ensures ReadAttributes(AttributeText(name, values)) == Some((name, Numbered(values, 0)))
  {
    var h := Header(name);
    var es := EntryLines(values, 0);
    HeaderPlain(name);
    EntriesPlain(values);
    LinesFree(h, es);
    SplitLines(h + es);
    ParseEntriesOf(values, 0);
    ReadAttributesOf(AttributeText(name, values), name, es, Numbered(values, 0));
  }

  lemma ReadAttributesOf(text: string, name: string, es: seq<string>, entries: seq<(int, string)>)
    requires SplitOn(text, '\n') == Header(name) + es + [""]
    requires ParseEntries(es) == Some(entries)
    ensures ReadAttributes(text) == Some((name, entries))
  {
    var ls := Header(name) + es + [""];
    assert ls[3..|ls| - 1] == es;
    assert ls[..3] == Header(name);
    HeaderFields(name, ls);
  }

  lemma HeaderFields(name: string, ls: seq<string>)
    requires |ls| >= 4 && ls[..3] == Header(name) && ls[|ls| - 1] == ""
    ensures ls[0] == "recipient: residues" && ls[2] == ""
    ensures |ls[1]| >= 11 && ls[1][..11] == "attribute: " && ls[1][11..] == name
  {
    assert ls[1] == Header(name)[1] == "attribute: " + name;
  }

  lemma HeaderPlain(name: string)
    requires '\n' !in name
    ensures forall i | 0 <= i < 3 :: '\n' !in Header(name)[i]
  {
    assert '\n' !in "recipient: residues";
    assert '\n' !in "attribute: ";
  }

  lemma EntriesPlain(values: seq<string>)
    requires forall i | 0 <= i < |values| :: Plain(values[i])
    ensures forall i | 0 <= i < |values| :: '\n' !in EntryLines(values, 0)[i]
  {
    forall i | 0 <= i < |values| ensures '\n' !in EntryLines(values, 0)[i] {
      EntryPlain(i, values[i]);
    }
  }

  lemma LinesFree(a: seq<string>, b: seq<string>)
    requires forall i | 0 <= i < |a| :: '\n' !in a[i]
    requires forall i | 0 <= i < |b| :: '\n' !in b[i]
    ensures forall i | 0 <= i < |a + b| :: '\n' !in (a + b)[i]
  {
  }

  lemma EntryPlain(x: nat, v: string)
    requires Plain(v)
    ensures '\n' !in EntryLine(x, v)
  {
    DigitsPlain(NatToString(x + 1));
  }

  lemma {:induction false} ParseEntriesOf(values: seq<string>, start: nat)
    requires forall i | 0 <= i < |values| :: Plain(values[i])
    ensures ParseEntries(EntryLines(values, start)) == Some(Numbered(values, start))
  {
    if values != [] {
      ParseEntriesOf(values[1..], start + 1);
      EntryRoundTrip(start, values[0]);
      assert EntryLines(values, start)[1..] == EntryLines(values[1..], start + 1);
    }
  }

  /** One entry line reads back as its position and value. */
  lemma EntryRoundTrip(x: nat, v: string)
    requires Plain(v)
    ensures ParseEntry(EntryLine(x, v)) == Some((x + 1, v))
  {
    var d := NatToString(x + 1);
    EntryFields(x, v);
    var fs := SplitOn(EntryLine(x, v), '\t');
    assert fs == ["", ":" + d, v];
    assert fs[1][1..] == d;
    assert IntToString(x + 1) == d;
    ParseIntToString(x + 1, "");
    assert IntToString(x + 1) + "" == d;
    assert ParseInt(fs[1][1..]) == Some(x + 1);
  }

  /** An entry line splits at its tabs into an empty field, `:` with the
      position, and the value. */
  lemma EntryFields(x: nat, v: string)
    requires Plain(v)
    ensures SplitOn(EntryLine(x, v), '\t') == ["", ":" + NatToString(x + 1), v]
  {
    var d := NatToString(x + 1);
    DigitsPlain(d);
    var field := ":" + d;
    assert '\t' !in field;
    SplitLastField(v, '\t');
    SplitAfterField(field, '\t', v);
    SplitAfterField("", '\t', field + "\t" + v);
    assert EntryLine(x, v) == "" + ['\t'] + (field + ['\t'] + v);
  }

  lemma DigitsPlain(d: string)
    requires forall k | 0 <= k < |d| :: IsDigit(d[k])
    ensures Plain(d)
  {
    forall k | 0 <= k < |d| ensures d[k] != '\t' && d[k] != '\n' {
      assert IsDigit(d[k]);
    }
  }

  // ---------------------------------------------------------------------
  // The ChimeraX control file.

  /** The ten key-value settings of `ChimeraXvis_<name>.ctl`, in the order
      written: the two structures, the map's own four, and the display
      settings. */
  function ControlSettings(m: AttributeMap, length: int): (kvs: seq<(string, string)>)
    ensures |kvs| == 10
  {
    Structures() + MapSettings(m, length) + Display()
  }

  function Structures(): (kvs: seq<(string, string)>)
    ensures |kvs| == 3
  {
    [("model", "#1"), ("structure", "ChimeraXvis/query.pdb"), ("structureADD", "ChimeraXvis/reference.pdb")]
  }

  function MapSettings(m: AttributeMap, length: int): (kvs: seq<(string, string)>)
    ensures |kvs| == 4
  {
    [("attr_file", "ChimeraXvis/attribute" + AttrName(m) + ".dat"), ("length", IntToString(length)),
     ("attr", AttrName(m)), ("palette", Palette(m))]
  }

  function Display(): (kvs: seq<(string, string)>)
    ensures |kvs| == 3
  {
    [("lighting", "simple"), ("transparency", "50"), ("background", "gray")]
  }

  /** Every line of a control file is a key, a tab and a value. */
  function SettingLines(kvs: seq<(string, string)>): (ls: seq<string>)
    ensures |ls| == |kvs|
    ensures forall i | 0 <= i < |kvs| :: ls[i] == kvs[i].0 + "\t" + kvs[i].1
  {
    if kvs == [] then [] else [kvs[0].0 + "\t" + kvs[0].1] + SettingLines(kvs[1..])
  }

  function ControlText(m: AttributeMap, length: int): string {
    LinesText(SettingLines(ControlSettings(m, length)))
  }

  /** Keys and values free of tabs and newlines. */
  predicate PlainSettings(kvs: seq<(string, string)>) {
    forall i | 0 <= i < |kvs| :: Plain(kvs[i].0) && Plain(kvs[i].1)
  }

  /** Reading a settings file: every line split at its tabs must give
      exactly a key and a value. */
  function ReadSettings(text: string): Option<seq<(string, string)>> {
    var ls := SplitOn(text, '\n');
    if ls[|ls| - 1] == "" then ParseSettings(ls[..|ls| - 1]) else None
  }

  function ParseSettings(lines: seq<string>): Option<seq<(string, string)>> {
    if lines == [] then Some([])
    else
      var fs := SplitOn(lines[0], '\t');
      var rest := ParseSettings(lines[1..]);
      if |fs| == 2 && rest.Some? then Some([(fs[0], fs[1])] + rest.value) else None
  }

  /** Plain settings are written one per line and read back unchanged. */
  lemma ReadSettingsOf(kvs: seq<(string, string)>)
    requires PlainSettings(kvs)
    ensures SplitOn(LinesText(SettingLines(kvs)), '\n') == SettingLines(kvs) + [""]
    ensures ReadSettings(LinesText(SettingLines(kvs))) == Some(kvs)
  {
    var ls := SettingLines(kvs);
    forall i | 0 <= i < |ls| ensures '\n' !in ls[i] {
      assert ls[i] == kvs[i].0 + ['\t'] + kvs[i].1;
    }
    SplitLines(ls);
    assert (ls + [""])[..|ls|] == ls;
    ParseSettingsOf(kvs);
  }

  lemma {:induction false} ParseSettingsOf(kvs: seq<(string, string)>)
    requires PlainSettings(kvs)
    ensures ParseSettings(SettingLines(kvs)) == Some(kvs)
  {
    if kvs != [] {
      var k, v := kvs[0].0, kvs[0].1;
      SplitLastField(v, '\t');
      SplitAfterField(k, '\t', v);
      assert k + "\t" + v == k + ['\t'] + v;
      assert SettingLines(kvs)[1..] == SettingLines(kvs[1..]);
      assert SettingLines(kvs)[0] == k + "\t" + v;
      ParseSettingsOf(kvs[1..]);
      assert [(k, v)] + kvs[1..] == kvs;
    }
  }

  /** The control file is ten lines, each a key, a tab and a value, and
      reads back as its ten settings; the `structureADD` setting names the
      reference structure, the length setting parses as the protein length
      and the attribute it names is the one the attribute file declares. */
  lemma ControlReadsBack(m: AttributeMap, length: int)
    ensures SplitOn(ControlText(m, length), '\n') == SettingLines(ControlSettings(m, length)) + [""]
    ensures ReadSettings(ControlText(m, length)) == Some(ControlSettings(m, length))
    ensures ControlSettings(m, length)[2] == ("structureADD", "ChimeraXvis/reference.pdb")
    ensures ControlSettings(m, length)[4] == ("length", IntToString(length))
    ensures ParseInt(ControlSettings(m, length)[4].1) == Some(length)
    ensures ControlSettings(m, length)[5] == ("attr", AttrName(m))
  {
    ControlPlain(m, length);
    ReadSettingsOf(ControlSettings(m, length));
    MapEntries(m, length);
    ParseIntToString(length, "");
    assert IntToString(length) + "" == IntToString(length);
  }

  lemma MapEntries(m: AttributeMap, length: int)
    ensures ControlSettings(m, length)[2] == Structures()[2]
    ensures ControlSettings(m, length)[4] == MapSettings(m, length)[1]
    ensures ControlSettings(m, length)[5] == MapSettings(m, length)[2]
  {
    var a, b, c := Structures(), MapSettings(m, length), Display();
    assert (a + b + c)[2] == a[2] && (a + b + c)[4] == b[1] && (a + b + c)[5] == b[2];
  }

  lemma ControlPlain(m: AttributeMap, length: int)
    ensures PlainSettings(ControlSettings(m, length))
  {
    StructuresPlain();
    MapPlain(m, length);
    DisplayPlain();
    PlainAppend(Structures(), MapSettings(m, length));
    PlainAppend(Structures() + MapSettings(m, length), Display());
  }

  lemma PlainAppend(a: seq<(string, string)>, b: seq<(string, string)>)
    requires PlainSettings(a) && PlainSettings(b)
    ensures PlainSettings(a + b)
  {
  }

  lemma StructuresPlain()
    ensures PlainSettings(Structures())
  {
    PairPlain("model", "#1");
    PairPlain("structure", "ChimeraXvis/query.pdb");
    PairPlain("structureADD", "ChimeraXvis/reference.pdb");
  }

  lemma MapPlain(m: AttributeMap, length: int)
    ensures PlainSettings(MapSettings(m, length))
  {
    AttrFilePlain(m);
    IntToStringPlain(length);
    PairPlain("length", "");
    PairPlain("attr", AttrName(m));
    PairPlain("palette", Palette(m));
  }

  lemma AttrFilePlain(m: AttributeMap)
    ensures Plain("attr_file") && Plain("ChimeraXvis/attribute" + AttrName(m) + ".dat")
  {
    PairPlain("ChimeraXvis/attribute", ".dat");
    PairPlain("attr_file", AttrName(m));
  }

  lemma DisplayPlain()
    ensures PlainSettings(Display())
  {
    PairPlain("lighting", "simple");
    PairPlain("transparency", "50");
    PairPlain("background", "gray");
  }

  /** Both strings are plain (a helper for the literals above). */
  lemma PairPlain(k: string, v: string)
    requires forall i | 0 <= i < |k| :: 'A' <= k[i] <= 'z' || '#' <= k[i] <= '9'
    requires forall i | 0 <= i < |v| :: 'A' <= v[i] <= 'z' || '#' <= v[i] <= '9'
    ensures Plain(k) && Plain(v)
  {
  }

  lemma IntToStringPlain(n: int)
    ensures Plain(IntToString(n))
  {
    var m: nat := if n < 0 then -n else n;
    DigitsPlain(NatToString(m));
  }

  // ---------------------------------------------------------------------
  // The files of the two comparisons.

  /** `attributeKL.dat`: the signed divergence of every site. */
  function KLFile(r: Report, fmt: real -> string): string {
    AttributeText("KL", Formatted(r.signed, fmt))
  }

  /** `attributeKLsig.dat`: the signed divergence of the "sig" sites. */
  function KLsigFile(r: Report, fmt: real -> string): string
    requires |r.labels| == |r.signed|
  {
    AttributeText("KLsig", SigValues(r.signed, r.labels, fmt))
  }

  function MmdValues(stats: seq<SiteStat>): (vs: seq<real>)
    ensures |vs| == |stats| && forall i | 0 <= i < |stats| :: vs[i] == stats[i].mmd
  {
    if stats == [] then [] else [stats[0].mmd] + MmdValues(stats[1..])
  }

  function MmdLabels(stats: seq<SiteStat>): (ls: seq<Label>)
    ensures |ls| == |stats| && forall i | 0 <= i < |stats| :: ls[i] == stats[i].verdict
  {
    if stats == [] then [] else [stats[0].verdict] + MmdLabels(stats[1..])
  }

  /** `attributeMMDsig.dat`: the observed discrepancy of the "sig" sites. */
  function MMDsigFile(stats: seq<SiteStat>, fmt: real -> string): string {
    AttributeText("MMDsig", SigValues(MmdValues(stats), MmdLabels(stats), fmt))
  }

  /** The KLsig file of a successful comparison holds one entry per site,
      in site order: position `x + 1`, and the signed divergence if site
      `x` is significant, `0.0` otherwise. */
  lemma {:induction false} KLsigEntries(length: int, allRef: seq<real>, allQuery: seq<real>, subRef: Matrix,
                      subQuery: Matrix, codes: seq<string>, entropy: (seq<real>, seq<real>) -> real,
                      ks: (seq<real>, seq<real>) -> KsResult, fmt: real -> string, x: nat)
    requires Compare(length, allRef, allQuery, subRef, subQuery, codes, entropy, ks).Ok?
    requires forall v: real :: Plain(fmt(v))
    requires x < length
    ensures var r := Compare(length, allRef, allQuery, subRef, subQuery, codes, entropy, ks).value;
      var read := ReadAttributes(KLsigFile(r, fmt));
      read.Some? && read.value.0 == "KLsig" && |read.value.1| == length &&
      read.value.1[x] == (x + 1, if r.labels[x] == Sig then fmt(r.signed[x]) else "0.0")
  {
    var r := Compare(length, allRef, allQuery, subRef, subQuery, codes, entropy, ks).value;
    BonferroniLabels(length, allRef, allQuery, subRef, subQuery, codes, entropy, ks, x);
    SignRule(length, allRef, allQuery, subRef, subQuery, codes, entropy, ks, x);
    var vs := SigValues(r.signed, r.labels, fmt);
    forall i | 0 <= i < |vs| ensures Plain(vs[i]) {
      if r.labels[i] == Sig {
        assert vs[i] == fmt(r.signed[i]);
      }
    }
    ReadWritten("KLsig", vs);
  }

  /** The MMDsig file holds one entry per analysed site (`length_prot - 1`
      of them): position `x + 1`, and the observed discrepancy if site `x`
      is significant, `0.0` otherwise. */
  lemma MMDsigEntries(stats: seq<SiteStat>, fmt: real -> string, x: nat)
    requires forall v: real :: Plain(fmt(v))
    requires x < |stats|
    ensures var read := ReadAttributes(MMDsigFile(stats, fmt));
      read.Some? && read.value.0 == "MMDsig" && |read.value.1| == |stats| &&
      read.value.1[x] == (x + 1, if stats[x].verdict == Sig then fmt(stats[x].mmd) else "0.0")
  {
    var vs := SigValues(MmdValues(stats), MmdLabels(stats), fmt);
    forall i | 0 <= i < |vs| ensures Plain(vs[i]) {
      if MmdLabels(stats)[i] == Sig {
        assert vs[i] == fmt(MmdValues(stats)[i]);
      }
    }
    ReadWritten("MMDsig", vs);
  }
}

/** The `DROIDS.ctl` reader that both scripts run at load time: each line is
    split on commas, field 0 names a setting and field 1 gives its value,
    later lines overwrite earlier ones, and five settings are then converted
    with `int`. */
module Control {
  import opened TextUtil

  /** The configuration variables the reader assigns, in the order the
      script converts them after the read loop. */
  datatype Setting =
    | QueryId | ReferenceId | QueryPdb | ReferencePdb | QueryTop | ReferenceTop
    | QueryTraj | ReferenceTraj | Subsamples | FrameSize | NFrames | NumChains | Length
    | Chimerax | BgColor | Divergence | Discrepancy | Conservation | Coordination | Variants

  /** The header each variable is read from. */
  function Name(s: Setting): string {
    match s
    case QueryId => "queryID"
    case ReferenceId => "referenceID"
    case QueryPdb => "queryPDB"
    case ReferencePdb => "referencePDB"
    case QueryTop => "queryTOP"
    case ReferenceTop => "referenceTOP"
    case QueryTraj => "queryTRAJ"
    case ReferenceTraj => "referenceTRAJ"
    case Subsamples => "subsamples"
    case FrameSize => "frame_size"
    case NFrames => "n_frames"
    case NumChains => "num_chains"
    case Length => "length"
    case Chimerax => "chimerax"
    case BgColor => "bgcolor"
    case Divergence => "divergence"
    case Discrepancy => "discrepancy"
    case Conservation => "conservation"
    case Coordination => "coordination"
    case Variants => "variants"
  }

  /** The variables converted with `int`. */
  predicate IsInteger(s: Setting) {
    s == Subsamples || s == FrameSize || s == NFrames || s == NumChains || s == Length
  }

  /** The assignment order of the configuration variables. */
  const Order: seq<Setting> := [
    QueryId, ReferenceId, QueryPdb, ReferencePdb, QueryTop, ReferenceTop, QueryTraj,
    ReferenceTraj, Subsamples, FrameSize, NFrames, NumChains, Length, Chimerax, BgColor,
    Divergence, Discrepancy, Conservation, Coordination, Variants]

  /** The read loop's header comparisons; at most one can match since the
      headers are distinct. */
  function Recognise(header: string): (r: Option<Setting>)
    ensures r.Some? ==> Name(r.value) == header
  {
    if header == "queryID" then Some(QueryId)
    else if header == "referenceID" then Some(ReferenceId)
    else if header == "queryPDB" then Some(QueryPdb)
    else if header == "referencePDB" then Some(ReferencePdb)
    else if header == "queryTOP" then Some(QueryTop)
    else if header == "referenceTOP" then Some(ReferenceTop)
    else if header == "queryTRAJ" then Some(QueryTraj)
    else if header == "referenceTRAJ" then Some(ReferenceTraj)
    else if header == "subsamples" then Some(Subsamples)
    else if header == "frame_size" then Some(FrameSize)
    else if header == "n_frames" then Some(NFrames)
    else if header == "num_chains" then Some(NumChains)
    else if header == "length" then Some(Length)
    else if header == "chimerax" then Some(Chimerax)
    else if header == "bgcolor" then Some(BgColor)
    else if header == "divergence" then Some(Divergence)
    else if header == "discrepancy" then Some(Discrepancy)
    else if header == "conservation" then Some(Conservation)
    else if header == "coordination" then Some(Coordination)
    else if header == "variants" then Some(Variants)
    else None
  }

  datatype ControlError =
    | MissingField(line: nat)                   // a line without a comma has no field 1
    | Unset(setting: Setting)                   // a variable that no line assigned
    | NotAnInteger(setting: Setting, text: string)  // `int` rejects the value

  /** The configuration the rest of the program reads. */
  datatype Config = Config(
    queryId: string, referenceId: string, queryPdb: string, referencePdb: string,
    queryTop: string, referenceTop: string, queryTraj: string, referenceTraj: string,
    subsamples: int, frameSize: int, nFrames: int, numChains: int, length: int,
    chimeraxPath: string, graphScheme: string, divergence: string,
    discrepancy: string, conservation: string, coordination: string, variants: string)

  /** Field 0 and field 1 of a line split on commas; None when the line has
      no comma, where indexing field 1 fails. */
  function Entry(line: string): Option<(string, string)> {
    var fields := SplitOn(line, ',');
    if |fields| < 2 then None else Some((fields[0], fields[1]))
  }

  /** One line's effect: the variable whose header matches takes the value. */
  function Assign(m: map<Setting, string>, header: string, value: string): map<Setting, string> {
    match Recognise(header)
    case Some(v) => m[v := value]
    case None => m
  }

  /** The settings after reading `lines` in order; the first line without a
      comma aborts the read. Unrecognised keys are ignored. */
  function Settings(lines: seq<string>): (r: Result<map<Setting, string>, ControlError>)
    decreases |lines|
  {
    if lines == [] then Ok(map[])
    else
      var before := Settings(lines[..|lines| - 1]);
      if before.Err? then before
      else match Entry(lines[|lines| - 1])
        case None => Err(MissingField(|lines| - 1))
        case Some((header, value)) => Ok(Assign(before.value, header, value))
  }

  /** The top-level read loop over the lines of the control file. */
  method ReadControl(lines: seq<string>) returns (r: Result<map<Setting, string>, ControlError>)
    ensures r == Settings(lines)
  {
    var settings: map<Setting, string> := map[];
    var x := 0;
    while x < |lines|
      invariant 0 <= x <= |lines|
      invariant Settings(lines[..x]) == Ok(settings)
    {
      assert lines[..x + 1][..x] == lines[..x];
      var fields := SplitOn(lines[x], ',');
      if |fields| < 2 {
        SettingsErrorPersists(lines, x + 1);
        return Err(MissingField(x));
      }
      var header, value := fields[0], fields[1];
      ghost var old_settings := settings;
      var recognised := Recognise(header);
      if recognised.Some? {
        settings := settings[recognised.value := value];
      }
      assert settings == Assign(old_settings, header, value);
      x := x + 1;
    }
    assert lines[..|lines|] == lines;
    r := Ok(settings);
  }

  /** Once a prefix of the file fails to read, the whole file fails the same way. */
  lemma {:induction false} SettingsErrorPersists(lines: seq<string>, n: nat)
    requires n <= |lines|
    requires Settings(lines[..n]).Err?
    ensures Settings(lines) == Settings(lines[..n])
    decreases |lines| - n
  {
    if n < |lines| {
      var longer := lines[..n + 1];
      assert longer[..n] == lines[..n];
      SettingsErrorPersists(lines, n + 1);
    } else {
      assert lines[..n] == lines;
    }
  }

  /** A line reads as the text before its first comma and the text between
      its first and second commas (or the end of the line). */
  lemma EntryFields(key: string, value: string, rest: string)
    requires ',' !in key && ',' !in value
    ensures Entry(key + "," + value) == Some((key, value))
    ensures Entry(key + "," + value + "," + rest) == Some((key, value))
  {
    SplitLastField(value, ',');
    SplitAfterField(key, ',', value);
    SplitAfterField(value, ',', rest);
    assert key + "," + value + "," + rest == key + [','] + (value + [','] + rest);
    SplitAfterField(key, ',', value + [','] + rest);
  }

  lemma {:induction false} CommaSplits(s: string)
    ensures ',' in s <==> |SplitOn(s, ',')| >= 2
  {
    if s != [] {
      CommaSplits(s[1..]);
      assert s == [s[0]] + s[1..];
    }
  }

  /** The key of a line, when it has one. */
  function KeyOf(line: string): Option<string> {
    match Entry(line)
    case None => None
    case Some((k, _)) => Some(k)
  }

  /** Reading fails exactly when some line has no comma, and it reports the
      first such line. */
  lemma {:induction false} SettingsFails(lines: seq<string>)
    ensures Settings(lines).Err? <==> exists i | 0 <= i < |lines| :: ',' !in lines[i]
    ensures Settings(lines).Err? ==> exists i | 0 <= i < |lines| ::
      && Settings(lines) == Err(MissingField(i)) && ',' !in lines[i]
      && forall j | 0 <= j < i :: ',' in lines[j]
    decreases |lines|
  {
    if lines != [] {
      var n := |lines| - 1;
      var before := lines[..n];
      SettingsFails(before);
      CommaSplits(lines[n]);
      forall j | 0 <= j < n ensures before[j] == lines[j] { }
      if Settings(before).Err? {
        assert Settings(lines) == Settings(before);
      } else if ',' !in lines[n] {
        assert Settings(lines) == Err(MissingField(n));
      } else {
        assert Settings(lines).Ok?;
      }
    }
  }

  /** A variable is set exactly when some line names its header. */
  lemma {:induction false} SettingsKeys(lines: seq<string>, v: Setting)
    requires Settings(lines).Ok?
    ensures v in Settings(lines).value <==> exists i | 0 <= i < |lines| :: KeyOf(lines[i]) == Some(Name(v))
    decreases |lines|
  {
    if lines != [] {
      var n := |lines| - 1;
      var before := lines[..n];
      SettingsSnoc(lines);
      var mb := Settings(before).value;
      SettingsKeys(before, v);
      var (header, value) := Entry(lines[n]).value;
      AssignEffect(mb, header, value, v);
      if Name(v) != header {
        assert KeyOf(lines[n]) != Some(Name(v));
        if exists i | 0 <= i < |lines| :: KeyOf(lines[i]) == Some(Name(v)) {
          var i :| 0 <= i < |lines| && KeyOf(lines[i]) == Some(Name(v));
          assert i < n && before[i] == lines[i];
        }
        if exists i | 0 <= i < n :: KeyOf(before[i]) == Some(Name(v)) {
          var i :| 0 <= i < n && KeyOf(before[i]) == Some(Name(v));
          assert before[i] == lines[i];
        }
      } else {
        assert KeyOf(lines[n]) == Some(Name(v));
      }
    }
  }

  /** A variable that is set holds field 1 of the last line naming its
      header: later lines overwrite earlier ones. */
  lemma {:induction false} SettingsLastWins(lines: seq<string>, v: Setting)
    requires Settings(lines).Ok? && v in Settings(lines).value
    ensures exists i | 0 <= i < |lines| ::
      && Entry(lines[i]) == Some((Name(v), Settings(lines).value[v]))
      && forall j | i < j < |lines| :: KeyOf(lines[j]) != Some(Name(v))
    decreases |lines|
  {
    var n := |lines| - 1;
    var before := lines[..n];
    SettingsSnoc(lines);
    var mb := Settings(before).value;
    var (header, value) := Entry(lines[n]).value;
    AssignEffect(mb, header, value, v);
    var m := Settings(lines).value;
    if Name(v) == header {
      assert Entry(lines[n]) == Some((Name(v), m[v]));
    } else {
      assert KeyOf(lines[n]) != Some(Name(v));
      assert v in mb && m[v] == mb[v];
      SettingsLastWins(before, v);
      var i :| 0 <= i < n && Entry(before[i]) == Some((Name(v), mb[v]))
               && forall j | i < j < n :: KeyOf(before[j]) != Some(Name(v));
      assert lines[i] == before[i];
      LaterLines(lines, before, i, v);
    }
  }

  /** Lifting the last-writer witness of all but the last line to the whole
      file, when the last line names another header. */
  lemma LaterLines(lines: seq<string>, before: seq<string>, i: nat, v: Setting)
    requires i < |lines| - 1 && before == lines[..|lines| - 1]
    requires forall j | i < j < |before| :: KeyOf(before[j]) != Some(Name(v))
    requires KeyOf(lines[|lines| - 1]) != Some(Name(v))
    ensures forall j | i < j < |lines| :: KeyOf(lines[j]) != Some(Name(v))
  {
    forall j | i < j < |lines| ensures KeyOf(lines[j]) != Some(Name(v)) {
      if j < |before| { assert lines[j] == before[j]; }
    }
  }

  /** A successful read of a non-empty file is a successful read of all but
      its last line followed by the last line's assignment. */
  lemma SettingsSnoc(lines: seq<string>)
    requires lines != [] && Settings(lines).Ok?
    ensures Settings(lines[..|lines| - 1]).Ok? && Entry(lines[|lines| - 1]).Some?
    ensures Settings(lines).value == Assign(Settings(lines[..|lines| - 1]).value,
      Entry(lines[|lines| - 1]).value.0, Entry(lines[|lines| - 1]).value.1)
  {
  }

  /** A line assigns exactly the variable its header names. */
  lemma AssignEffect(m: map<Setting, string>, header: string, value: string, v: Setting)
    ensures v in Assign(m, header, value) <==> v in m || Name(v) == header
    ensures Name(v) == header ==> Assign(m, header, value)[v] == value
    ensures Name(v) != header && v in m ==> Assign(m, header, value)[v] == m[v]
  {
    RecogniseName(v);
  }

  /** Each variable is recognised by its own header. */
  lemma RecogniseName(v: Setting)
    ensures Recognise(Name(v)) == Some(v)
  {
    var r := Recognise(Name(v));
    if r.Some? {
      NameInjective(r.value, v);
    }
  }

  /** A header that is not recognised is no variable's header. */
  lemma RecogniseNone(header: string)
    requires Recognise(header).None?
    ensures forall s: Setting :: Name(s) != header
  {
    forall s: Setting ensures Name(s) != header {
      RecogniseName(s);
    }
  }

  /** Distinct variables have distinct headers. */
  lemma NameInjective(u: Setting, v: Setting)
    requires Name(u) == Name(v)
    ensures u == v
  {
  }

  /** A variable that is assigned and, if it is an integer, parses. */
  predicate Settable(m: map<Setting, string>, v: Setting) {
    v in m && (IsInteger(v) ==> ParseInt(m[v]).Some?)
  }

  /** The first configuration variable, in assignment order, that cannot be
      set: one that no line assigned, or an integer variable `int` rejects. */
  function FirstProblem(m: map<Setting, string>, order: seq<Setting>): (p: Option<ControlError>)
    ensures p.None? <==> forall v | v in order :: v in m && (IsInteger(v) ==> ParseInt(m[v]).Some?)
    ensures p.Some? ==> p.value.Unset? || p.value.NotAnInteger?
    ensures p.Some? && p.value.Unset? ==> p.value.setting in order && p.value.setting !in m
    ensures p.Some? && p.value.NotAnInteger? ==>
      && p.value.setting in order && IsInteger(p.value.setting)
      && p.value.setting in m && ParseInt(m[p.value.setting]).None?
      && p.value.text == m[p.value.setting]
    ensures p.Some? ==> exists j | 0 <= j < |order| ::
      order[j] == p.value.setting && forall k | 0 <= k < j :: Settable(m, order[k])
  {
    if order == [] then None
    else if order[0] !in m then Some(Unset(order[0]))
    else if IsInteger(order[0]) && ParseInt(m[order[0]]).None? then Some(NotAnInteger(order[0], m[order[0]]))
    else
      var p := FirstProblem(m, order[1..]);
      if p.Some? then FirstAfterSettable(m, order, p.value.setting); p else p
  }

  /** A variable first in the rest of the order, after a settable one, is
      first in the whole order. */
  lemma FirstAfterSettable(m: map<Setting, string>, order: seq<Setting>, v: Setting)
    requires |order| > 0 && Settable(m, order[0])
    requires exists j | 0 <= j < |order[1..]| ::
      order[1..][j] == v && forall k | 0 <= k < j :: Settable(m, order[1..][k])
    ensures exists j | 0 <= j < |order| :: order[j] == v && forall k | 0 <= k < j :: Settable(m, order[k])
  {
    var j :| 0 <= j < |order[1..]| && order[1..][j] == v && forall k | 0 <= k < j :: Settable(m, order[1..][k]);
    assert order[j + 1] == v;
    forall k | 0 <= k < j + 1 ensures Settable(m, order[k]) {
      if k > 0 {
        assert order[k] == order[1..][k - 1];
      }
    }
  }

  /** Every variable is assigned and every integer variable parses. */
  predicate Complete(m: map<Setting, string>) {
    forall v: Setting :: v in m && (IsInteger(v) ==> ParseInt(m[v]).Some?)
  }

  lemma OrderHasAll(v: Setting)
    ensures v in Order
  {
  }

  function IntOf(m: map<Setting, string>, v: Setting): int
    requires v in m && ParseInt(m[v]).Some?
  {
    ParseInt(m[v]).value
  }

  /** The variable assignments after the read loop: every variable is
      taken as read (the five counts as integers), and the first variable,
      in assignment order, that is unset or not an integer aborts the script. */
  function Configure(m: map<Setting, string>): (r: Result<Config, ControlError>)
    ensures r.Ok? <==> Complete(m)
    ensures r.Ok? ==> && ParseInt(m[Length]) == Some(r.value.length)
                      && ParseInt(m[Subsamples]) == Some(r.value.subsamples)
                      && ParseInt(m[FrameSize]) == Some(r.value.frameSize)
                      && ParseInt(m[NFrames]) == Some(r.value.nFrames)
                      && ParseInt(m[NumChains]) == Some(r.value.numChains)
    ensures r.Ok? ==> && r.value.queryId == m[QueryId] && r.value.referenceId == m[ReferenceId]
                      && r.value.queryPdb == m[QueryPdb] && r.value.referencePdb == m[ReferencePdb]
                      && r.value.queryTop == m[QueryTop] && r.value.referenceTop == m[ReferenceTop]
                      && r.value.queryTraj == m[QueryTraj] && r.value.referenceTraj == m[ReferenceTraj]
                      && r.value.chimeraxPath == m[Chimerax] && r.value.graphScheme == m[BgColor]
                      && r.value.divergence == m[Divergence] && r.value.discrepancy == m[Discrepancy]
                      && r.value.conservation == m[Conservation] && r.value.coordination == m[Coordination]
                      && r.value.variants == m[Variants]
    ensures r.Err? ==> FirstProblem(m, Order) == Some(r.error)
    ensures r.Err? ==> r.error.Unset? || r.error.NotAnInteger?
    ensures r.Err? && r.error.Unset? ==> r.error.setting !in m
    ensures r.Err? && r.error.NotAnInteger? ==>
      IsInteger(r.error.setting) && r.error.setting in m && ParseInt(m[r.error.setting]).None?
  {
    assert Complete(m) <==> FirstProblem(m, Order).None? by {
      forall v: Setting ensures v in Order { OrderHasAll(v); }
    }
    match FirstProblem(m, Order)
    case Some(e) => Err(e)
    case None =>
      Ok(Config(
        m[QueryId], m[ReferenceId], m[QueryPdb], m[ReferencePdb], m[QueryTop],
        m[ReferenceTop], m[QueryTraj], m[ReferenceTraj], IntOf(m, Subsamples),
        IntOf(m, FrameSize), IntOf(m, NFrames), IntOf(m, NumChains), IntOf(m, Length),
        m[Chimerax], m[BgColor], m[Divergence], m[Discrepancy], m[Conservation],
        m[Coordination], m[Variants]))
  }
}

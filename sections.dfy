/**
 * The section parser of `create_or_update_notion_page`: it reads the language
 * model's free-text reply line by line and fills a fixed five-entry dictionary.
 *
 * Each turn of the loop first looks at its line: stripped, it is skipped (empty or
 * a '#' line), opens a section (it starts with a label and an ASCII colon), or is
 * plain text. `Classify` gives that reading and `Apply` what the turn then does to
 * the loop's variables; `Machine` is the loop over classified lines, `Parse` the
 * loop over the whole reply. `ParseSections` is the loop itself, proved equal to
 * `Parse`; the lemmas state what the loop does.
 */
module Sections {
  import opened Wrappers
  import opened Text

  const PartOfSpeech: string := "品詞"
  const Meaning: string := "意味"
  const Etymology: string := "語源"
  const Example: string := "例文"
  const Related: string := "関連語"

  /** The dictionary's keys in insertion order, the order in which labels are tried. */
  const Labels: seq<string> := [PartOfSpeech, Meaning, Etymology, Example, Related]
  const LabelSet: set<string> := {PartOfSpeech, Meaning, Etymology, Example, Related}

  /** The part of speech assumed when the reply names none. */
  const DefaultPartOfSpeech: string := "形容詞"

  /** The dictionary before any line is read. */
  function Initial(): (m: map<string, string>)
    ensures m.Keys == LabelSet
  {
    map[PartOfSpeech := DefaultPartOfSpeech, Meaning := "", Etymology := "",
        Example := "", Related := ""]
  }

  /** What a line must start with to open a section: the label and an ASCII colon. */
  function Marker(name: string): string
  {
    name + ":"
  }

  /** The first label of `ls` whose marker starts `t` (the `for ... else` over the keys). */
  function FirstLabel(t: string, ls: seq<string>): (r: Option<string>)
    ensures r.Some? ==> r.value in ls && Marker(r.value) <= t
    decreases |ls|
  {
    if ls == [] then None
    else if Marker(ls[0]) <= t then Some(ls[0])
    else FirstLabel(t, ls[1..])
  }

  /** How one turn of the loop reads its line. */
  datatype Line =
    | Skip                             // empty once stripped, or a '#' line
    | Opens(name: string, text: string)  // starts with a label's marker; `text` seeds the buffer
    | Plain(text: string)              // anything else, stripped

  /** Strip the line, skip it if empty or a '#' line, else try the labels in order; a
      label line's text is the stripped line with every occurrence of the marker removed,
      stripped again. */
  function Classify(raw: string): (r: Line)
    ensures r.Opens? ==> r.name in LabelSet && Marker(r.name) <= Strip(raw)
    ensures r.Plain? ==> r.text == Strip(raw) && r.text != []
  {
    var t := Strip(raw);
    if t == [] || t[0] == '#' then Skip
    else
      match FirstLabel(t, Labels)
      case Some(l) => Opens(l, Strip(RemoveAll(t, Marker(l))))
      case None => Plain(t)
  }

  /** The loop's variables: the dictionary, `current_section` and `current_content`. */
  datatype State = State(sections: map<string, string>, current: Option<string>, content: seq<string>)

  const Start: State := State(Initial(), None, [])

  /** The buffer a label line starts: its text, or nothing when that is empty. */
  function Seed(c: string): seq<string>
  {
    if c == [] then [] else [c]
  }

  /** The entry of the active section is rewritten as its buffer joined with spaces. */
  function Commit(st: State): State
  {
    if st.current.Some? then
      st.(sections := st.sections[st.current.value := Join(st.content, " ")])
    else st
  }

  /** One turn of the loop on a classified line: a label line switches the section and
      restarts the buffer, plain text goes to the end of the active section's buffer (or
      is dropped while none is active), and the active entry is then rewritten. */
  function Apply(st: State, line: Line): (r: State)
    ensures r.current == (if line.Opens? then Some(line.name) else st.current)
    ensures forall k :: k in st.sections && Some(k) != r.current ==>
      k in r.sections && r.sections[k] == st.sections[k]
  {
    match line
    case Skip => st
    case Opens(l, c) => Commit(st.(current := Some(l), content := Seed(c)))
    case Plain(t) => Commit(if st.current.Some? then st.(content := st.content + [t]) else st)
  }

  /** The loop over classified lines, from state `st`. */
  function Machine(st: State, lines: seq<Line>): State
    decreases |lines|
  {
    if lines == [] then st
    else Apply(Machine(st, lines[..|lines| - 1]), lines[|lines| - 1])
  }

  /** Every raw line classified. */
  function Kinds(raws: seq<string>): (lines: seq<Line>)
    ensures |lines| == |raws|
    ensures forall k :: 0 <= k < |raws| ==> lines[k] == Classify(raws[k])
    decreases |raws|
  {
    if raws == [] then [] else Kinds(raws[..|raws| - 1]) + [Classify(raws[|raws| - 1])]
  }

  /** What the loop leaves in the dictionary for a whole reply. */
  function Parse(explanation: string): (sections: map<string, string>)
    ensures sections.Keys == LabelSet
  {
    MachineValid(Start, Kinds(Split(explanation, '\n')));
    Machine(Start, Kinds(Split(explanation, '\n'))).sections
  }

  /** The plain texts among `lines`, in order. */
  function Texts(lines: seq<Line>): seq<string>
    decreases |lines|
  {
    if lines == [] then []
    else
      var last := lines[|lines| - 1];
      Texts(lines[..|lines| - 1]) + (if last.Plain? then [last.text] else [])
  }

  /** The loop's invariant: exactly the five keys, and the active section's entry is
      its buffer joined with single spaces. */
  ghost predicate Valid(st: State)
  {
    st.sections.Keys == LabelSet &&
    (st.current.Some? ==>
      st.current.value in LabelSet && st.sections[st.current.value] == Join(st.content, " "))
  }

  /** The search over the dictionary's keys for the label whose marker starts `t`. */
  method FindLabel(t: string) returns (found: Option<string>)
    ensures found == FirstLabel(t, Labels)
  {
    var j := 0;
    while j < |Labels|
      invariant 0 <= j <= |Labels|
      invariant FirstLabel(t, Labels) == FirstLabel(t, Labels[j..])
    {
      var name := Labels[j];
      if Marker(name) <= t {
        return Some(name);
      }
      assert Labels[j..][1..] == Labels[j + 1..];
      j := j + 1;
    }
    return None;
  }

  /** One pass of the loop body on the raw line `raw`, updating the dictionary,
      `current_section` and `current_content`. */
  method ReadLine(sections: map<string, string>, current: Option<string>, content: seq<string>, raw: string)
    returns (sections': map<string, string>, current': Option<string>, content': seq<string>)
    ensures State(sections', current', content') == Apply(State(sections, current, content), Classify(raw))
  {
    sections', current', content' := sections, current, content;
    var line := Strip(raw);
    if line == [] || line[0] == '#' {
      return;
    }
    var found := FindLabel(line);
    match found {
      case Some(name) =>
        current' := Some(name);
        var c := Strip(RemoveAll(line, Marker(name)));
        if c != [] {
          content' := [c];
        } else {
          content' := [];
        }
      case None =>
        if current'.Some? {
          content' := content' + [line];
        }
    }
    if current'.Some? {
      sections' := sections'[current'.value := Join(content', " ")];
    }
  }

  /** The parsing loop. */
  method ParseSections(explanation: string) returns (sections: map<string, string>)
    ensures sections == Parse(explanation)
  {
    sections := Initial();
    var current: Option<string> := None;
    var content: seq<string> := [];
    var lines := Split(explanation, '\n');
    var i := 0;
    while i < |lines|
      invariant 0 <= i <= |lines|
      invariant Machine(Start, Kinds(lines[..i])) == State(sections, current, content)
    {
      assert lines[..i + 1][..i] == lines[..i];
      assert Kinds(lines[..i + 1])[..i] == Kinds(lines[..i]);
      sections, current, content := ReadLine(sections, current, content, lines[i]);
      i := i + 1;
    }
    assert lines[..|lines|] == lines;
  }

  // ---------------------------------------------------------------------------
  // Reading one line

  /** No two labels of `ls` begin with the same character, and none is empty. */
  predicate DistinctInitials(ls: seq<string>)
  {
    (forall i :: 0 <= i < |ls| ==> ls[i] != []) &&
    (forall i, j :: 0 <= i < j < |ls| ==> ls[i][0] != ls[j][0])
  }

  /** When labels begin with distinct characters, a label whose marker starts `t` is the
      one the first-match search finds. */
  lemma {:induction false} FirstLabelUnique(t: string, ls: seq<string>, l: string)
    requires DistinctInitials(ls)
    requires l in ls && Marker(l) <= t
    ensures FirstLabel(t, ls) == Some(l)
    decreases |ls|
  {
    assert t[0] == Marker(l)[0] == l[0];
    if ls[0] != l {
      assert l in ls[1..];
      assert DistinctInitials(ls[1..]) by {
        forall i, j | 0 <= i < j < |ls[1..]| ensures ls[1..][i][0] != ls[1..][j][0] {
          assert ls[1..][i] == ls[i + 1] && ls[1..][j] == ls[j + 1];
        }
      }
      FirstLabelUnique(t, ls[1..], l);
    }
  }

  /** When no marker starts `t`, the search finds nothing. */
  lemma {:induction false} FirstLabelNone(t: string, ls: seq<string>)
    requires forall l :: l in ls ==> !(Marker(l) <= t)
    ensures FirstLabel(t, ls) == None
    decreases |ls|
  {
    if ls != [] {
      FirstLabelNone(t, ls[1..]);
    }
  }

  lemma LabelsDistinct()
    ensures DistinctInitials(Labels)
    ensures forall l :: l in LabelSet <==> l in Labels
  {
  }

  /** Facts about the five labels as written: each starts with a character that is neither
      whitespace nor '#', and none holds a line break. */
  lemma LabelChars(l: string)
    requires l in LabelSet
    ensures l != [] && !IsSpace(l[0]) && l[0] != '#' && '\n' !in Marker(l)
  {
    assert l == PartOfSpeech || l == Meaning || l == Etymology || l == Example || l == Related;
  }

  /** A line opens section `l` exactly when, stripped, it starts with `l` and an ASCII
      colon: no two markers can start the same line, so the first match is the only one.
      Its text is then the stripped line with every occurrence of the marker removed,
      stripped again. */
  lemma OpensIff(raw: string, l: string)
    ensures (Classify(raw).Opens? && Classify(raw).name == l) <==>
      (l in LabelSet && Marker(l) <= Strip(raw))
    ensures Classify(raw).Opens? ==>
      Classify(raw).text == Strip(RemoveAll(Strip(raw), Marker(Classify(raw).name)))
  {
    OpensSound(raw);
    if l in LabelSet && Marker(l) <= Strip(raw) {
      OpensComplete(raw, l);
    }
  }

  lemma OpensSound(raw: string)
    ensures Classify(raw).Opens? ==>
      Classify(raw).name in LabelSet && Marker(Classify(raw).name) <= Strip(raw) &&
      Classify(raw).text == Strip(RemoveAll(Strip(raw), Marker(Classify(raw).name)))
  {
    LabelsDistinct();
  }

  lemma OpensComplete(raw: string, l: string)
    requires l in LabelSet && Marker(l) <= Strip(raw)
    ensures Classify(raw) == Opens(l, Strip(RemoveAll(Strip(raw), Marker(l))))
  {
    var t := Strip(raw);
    assert FirstLabel(t, Labels) == Some(l) by {
      LabelsDistinct();
      LabelChars(l);
      assert t[0] == Marker(l)[0] == l[0];
      FirstLabelUnique(t, Labels, l);
    }
    assert t != [] && t[0] != '#' by {
      LabelChars(l);
      assert t[0] == Marker(l)[0] == l[0];
    }
  }

  /** A label line that repeats its marker further on keeps none of its occurrences:
      both are deleted and the text on either side is run together. */
  lemma RepeatedMarkerRemoved(raw: string, l: string, a: string, b: string)
    requires l in LabelSet
    requires Strip(raw) == Marker(l) + a + Marker(l) + b
    requires l[0] !in a && l[0] !in b
    ensures Classify(raw) == Opens(l, Strip(a + b))
  {
    var t, m := Strip(raw), Marker(l);
    assert m[0] == l[0] by { LabelChars(l); }
    assert Classify(raw) == Opens(l, Strip(RemoveAll(t, m))) by {
      assert m <= t;
      OpensComplete(raw, l);
    }
    assert RemoveAll(t, m) == a + b by {
      RemoveTwice(m, a, b);
    }
  }

  /** A line that, stripped, starts with no label's marker is skipped or plain text;
      in particular a full-width colon '：' after a label does not open a section. */
  lemma PlainUnlessMarked(raw: string)
    requires forall l :: l in LabelSet ==> !(Marker(l) <= Strip(raw))
    ensures !Classify(raw).Opens?
  {
    LabelsDistinct();
    FirstLabelNone(Strip(raw), Labels);
  }

  // ---------------------------------------------------------------------------
  // One turn of the loop

  /** A turn keeps the invariant, and writes no entry but the active section's. */
  lemma ApplyValid(st: State, line: Line)
    requires Valid(st)
    requires line.Opens? ==> line.name in LabelSet
    ensures Valid(Apply(st, line))
    ensures forall k :: k in LabelSet && Apply(st, line).current != Some(k) ==>
      Apply(st, line).sections[k] == st.sections[k]
  {
  }

  /** Every label a reply line can open is one of the five. */
  predicate KnownLabels(lines: seq<Line>)
  {
    forall k :: 0 <= k < |lines| ==> lines[k].Opens? ==> lines[k].name in LabelSet
  }

  lemma KindsKnown(raws: seq<string>)
    ensures KnownLabels(Kinds(raws))
  {
    forall k | 0 <= k < |raws| && Classify(raws[k]).Opens?
      ensures Classify(raws[k]).name in LabelSet
    {
      LabelsDistinct();
    }
  }

  /** A label line makes its label the active section, restarts the buffer with the
      line's text, and sets that entry to the text; nothing else changes. */
  lemma OpensResets(st: State, l: string, c: string)
    ensures Apply(st, Opens(l, c)).current == Some(l)
    ensures Apply(st, Opens(l, c)).content == Seed(c)
    ensures Apply(st, Opens(l, c)).sections == st.sections[l := c]
  {
    assert Join(Seed(c), " ") == c;
  }

  /** A skipped line changes nothing. */
  lemma SkipNoEffect(st: State, a: seq<Line>, b: seq<Line>)
    ensures Machine(st, a + [Skip] + b) == Machine(st, a + b)
  {
    MachineConcat(st, a + [Skip], b);
    MachineConcat(st, a, [Skip]);
    assert [Skip][..0] == [];
    MachineConcat(st, a, b);
  }

  // ---------------------------------------------------------------------------
  // The loop over many lines

  lemma {:induction false} MachineValid(st: State, lines: seq<Line>)
    requires Valid(st) && KnownLabels(lines)
    ensures Valid(Machine(st, lines))
    decreases |lines|
  {
    if lines != [] {
      MachineValid(st, lines[..|lines| - 1]);
      ApplyValid(Machine(st, lines[..|lines| - 1]), lines[|lines| - 1]);
    }
  }

  /** The loop over `a + b` is the loop over `b` from where the loop over `a` stopped. */
  lemma {:induction false} MachineConcat(st: State, a: seq<Line>, b: seq<Line>)
    ensures Machine(st, a + b) == Machine(Machine(st, a), b)
    decreases |b|
  {
    if b == [] {
      assert a + b == a;
    } else {
      assert (a + b)[..|a + b| - 1] == a + b[..|b| - 1];
      MachineConcat(st, a, b[..|b| - 1]);
    }
  }

  /** Lines before the first label line are dropped: the state is still the initial
      one after them, and the result is as though they were absent. */
  lemma {:induction false} PreambleDiscarded(pre: seq<Line>, rest: seq<Line>)
    requires forall k :: 0 <= k < |pre| ==> !pre[k].Opens?
    ensures Machine(Start, pre) == Start
    ensures Machine(Start, pre + rest) == Machine(Start, rest)
    decreases |pre|
  {
    if pre != [] {
      PreambleDiscarded(pre[..|pre| - 1], []);
    }
    MachineConcat(Start, pre, rest);
  }

  /** Classifying is line by line. */
  lemma KindsConcat(a: seq<string>, b: seq<string>)
    ensures Kinds(a + b) == Kinds(a) + Kinds(b)
  {
    assert forall k :: 0 <= k < |a| ==> (a + b)[k] == a[k];
    assert forall k :: |a| <= k < |a| + |b| ==> (a + b)[k] == b[k - |a|];
  }

  /** A line is skipped exactly when, stripped, it is empty or starts with '#'. */
  lemma SkipIff(raw: string)
    ensures Classify(raw) == Skip <==> (Strip(raw) == [] || Strip(raw)[0] == '#')
  {
  }

  /** An empty or '#' line anywhere in the reply changes neither the state nor the result. */
  lemma SkippedLineIgnored(st: State, a: seq<string>, raw: string, b: seq<string>)
    requires Strip(raw) == [] || Strip(raw)[0] == '#'
    ensures Machine(st, Kinds(a + [raw] + b)) == Machine(st, Kinds(a + b))
  {
    KindsConcat(a + [raw], b);
    KindsConcat(a, [raw]);
    KindsConcat(a, b);
    assert Kinds([raw]) == [Skip];
    SkipNoEffect(st, Kinds(a), Kinds(b));
  }

  /** Reply lines before the first one that starts with a label's marker are discarded. */
  lemma PreambleIgnored(pre: seq<string>, rest: seq<string>)
    requires forall k, l :: 0 <= k < |pre| && l in LabelSet ==> !(Marker(l) <= Strip(pre[k]))
    ensures Machine(Start, Kinds(pre)) == Start
    ensures Machine(Start, Kinds(pre + rest)) == Machine(Start, Kinds(rest))
  {
    forall k | 0 <= k < |pre| ensures !Kinds(pre)[k].Opens? {
      PlainUnlessMarked(pre[k]);
    }
    KindsConcat(pre, rest);
    PreambleDiscarded(Kinds(pre), Kinds(rest));
  }

  /** Plain text read while section `l` is active goes to the end of its buffer, in
      order; no other entry changes. */
  lemma {:induction false} ContinuationAppends(st: State, seg: seq<Line>)
    requires Valid(st) && st.current.Some?
    requires forall k :: 0 <= k < |seg| ==> !seg[k].Opens?
    ensures Valid(Machine(st, seg))
    ensures Machine(st, seg).current == st.current
    ensures Machine(st, seg).content == st.content + Texts(seg)
    ensures forall k :: k in LabelSet && k != st.current.value ==>
      Machine(st, seg).sections[k] == st.sections[k]
    decreases |seg|
  {
    if seg != [] {
      var init, last := seg[..|seg| - 1], seg[|seg| - 1];
      ContinuationAppends(st, init);
      ApplyValid(Machine(st, init), last);
    }
  }

  /** No line of `lines` opens section `l`. */
  predicate NeverOpens(lines: seq<Line>, l: string)
  {
    forall k :: 0 <= k < |lines| ==> !(lines[k].Opens? && lines[k].name == l)
  }

  /** While `l` is not active and no line opens it, its entry stays as it is. */
  lemma {:induction false} InactiveUnchanged(st: State, lines: seq<Line>, l: string)
    requires Valid(st) && KnownLabels(lines) && l in LabelSet && st.current != Some(l)
    requires NeverOpens(lines, l)
    ensures Valid(Machine(st, lines))
    ensures Machine(st, lines).current != Some(l)
    ensures Machine(st, lines).sections[l] == st.sections[l]
    decreases |lines|
  {
    if lines != [] {
      var init := lines[..|lines| - 1];
      InactiveUnchanged(st, init, l);
      ApplyValid(Machine(st, init), lines[|lines| - 1]);
    }
  }

  /** After a line opening another section, `l` keeps its entry for as long as no line
      opens `l` again. */
  lemma LeaveSection(st: State, rest: seq<Line>, l: string)
    requires Valid(st) && KnownLabels(rest) && l in LabelSet && st.current == Some(l)
    requires rest != [] && rest[0].Opens?
    requires NeverOpens(rest, l)
    ensures Valid(Machine(st, rest))
    ensures Machine(st, rest).sections[l] == st.sections[l]
  {
    var first := rest[0];
    assert Machine(st, [first]) == Apply(st, first);
    ApplyValid(st, first);
    assert rest == [first] + rest[1..];
    MachineConcat(st, [first], rest[1..]);
    InactiveUnchanged(Apply(st, first), rest[1..], l);
  }

  /** The last line opening `l` decides its entry: its text followed by the plain text
      up to the next label line, joined with spaces; whatever `l` held before is lost. */
  lemma ResetOnRepeat(st: State, c: string, seg: seq<Line>, rest: seq<Line>, l: string)
    requires Valid(st) && l in LabelSet && KnownLabels(rest)
    requires forall k :: 0 <= k < |seg| ==> !seg[k].Opens?
    requires rest == [] || rest[0].Opens?
    requires NeverOpens(rest, l)
    ensures l in Machine(st, [Opens(l, c)] + seg + rest).sections
    ensures Machine(st, [Opens(l, c)] + seg + rest).sections[l] == Join(Seed(c) + Texts(seg), " ")
  {
    var o := [Opens(l, c)];
    var active := Apply(st, Opens(l, c));
    assert Machine(st, o) == active by {
      assert o[..0] == [];
    }
    OpensResets(st, l, c);
    ApplyValid(st, Opens(l, c));
    MachineConcat(st, o, seg);
    ContinuationAppends(active, seg);
    var mid := Machine(active, seg);
    assert mid.sections[l] == Join(Seed(c) + Texts(seg), " ");
    MachineConcat(st, o + seg, rest);
    assert Machine(st, o + seg + rest) == Machine(mid, rest);
    if rest == [] {
      assert Machine(mid, rest) == mid;
    } else {
      LeaveSection(mid, rest, l);
    }
  }

  // ---------------------------------------------------------------------------
  // Whole replies

  /** A label that no line of the reply starts with (its marker, after stripping) keeps
      its initial value: the default part of speech, or the empty string. */
  lemma AbsentLabelKeepsDefault(explanation: string, l: string)
    requires l in LabelSet
    requires forall k :: 0 <= k < |Split(explanation, '\n')| ==>
      !(Marker(l) <= Strip(Split(explanation, '\n')[k]))
    ensures Parse(explanation)[l] == Initial()[l]
  {
    var raws := Split(explanation, '\n');
    var lines := Kinds(raws);
    forall k | 0 <= k < |lines| ensures !(lines[k].Opens? && lines[k].name == l) {
      OpensIff(raws[k], l);
    }
    KindsKnown(raws);
    InactiveUnchanged(Start, lines, l);
  }

  lemma InitialValues(l: string)
    requires l in LabelSet
    ensures Initial()[l] == (if l == PartOfSpeech then DefaultPartOfSpeech else "")
  {
  }

  /** No entry holds a line break, and neither does any text in the buffer. */
  ghost predicate FreeOfNewlines(st: State)
  {
    (forall k :: k in st.sections ==> '\n' !in st.sections[k]) &&
    (forall i :: 0 <= i < |st.content| ==> '\n' !in st.content[i])
  }

  /** The text a classified line carries, if any. */
  function LineText(line: Line): string
  {
    if line.Skip? then "" else line.text
  }

  /** A line with no line break classifies to text with none. */
  lemma ClassifyFreeOfNewlines(raw: string)
    requires '\n' !in raw
    ensures '\n' !in LineText(Classify(raw))
  {
    var t := Strip(raw);
    assert '\n' !in t by {
      StripAvoids(raw, '\n');
    }
    if FirstLabel(t, Labels).Some? {
      var m := Marker(FirstLabel(t, Labels).value);
      assert '\n' !in Strip(RemoveAll(t, m)) by {
        RemoveAllAvoids(t, m, '\n');
        StripAvoids(RemoveAll(t, m), '\n');
      }
    }
  }

  lemma ApplyFreeOfNewlines(st: State, line: Line)
    requires FreeOfNewlines(st) && '\n' !in LineText(line)
    ensures FreeOfNewlines(Apply(st, line))
  {
    var s := match line
      case Skip => st
      case Opens(l, c) => st.(current := Some(l), content := Seed(c))
      case Plain(t) => if st.current.Some? then st.(content := st.content + [t]) else st;
    assert Apply(st, line) == Commit(s) || line.Skip?;
    if s.current.Some? {
      JoinAvoids(s.content, " ", '\n');
    }
  }

  lemma {:induction false} MachineFreeOfNewlines(st: State, lines: seq<Line>)
    requires FreeOfNewlines(st)
    requires forall k :: 0 <= k < |lines| ==> '\n' !in LineText(lines[k])
    ensures FreeOfNewlines(Machine(st, lines))
    decreases |lines|
  {
    if lines != [] {
      MachineFreeOfNewlines(st, lines[..|lines| - 1]);
      ApplyFreeOfNewlines(Machine(st, lines[..|lines| - 1]), lines[|lines| - 1]);
    }
  }

  /** Since the reply is cut at every line break and the pieces are joined with spaces,
      no parsed value holds a line break. */
  lemma NoNewlines(explanation: string)
    ensures forall k :: k in Parse(explanation) ==> '\n' !in Parse(explanation)[k]
  {
    var raws := Split(explanation, '\n');
    KindsFreeOfNewlines(raws);
    StartFreeOfNewlines();
    MachineFreeOfNewlines(Start, Kinds(raws));
  }

  lemma KindsFreeOfNewlines(raws: seq<string>)
    requires forall k :: 0 <= k < |raws| ==> '\n' !in raws[k]
    ensures forall k :: 0 <= k < |raws| ==> '\n' !in LineText(Kinds(raws)[k])
  {
    forall k | 0 <= k < |raws| ensures '\n' !in LineText(Kinds(raws)[k]) {
      ClassifyFreeOfNewlines(raws[k]);
    }
  }

  lemma StartFreeOfNewlines()
    ensures FreeOfNewlines(Start)
  {
    assert '\n' !in DefaultPartOfSpeech;
  }

  /** A value the reply may give for label `l` and get back unchanged: non-empty, without
      whitespace at either end, without a line break and without the label's marker. */
  predicate PlainValue(v: string, l: string)
  {
    v != [] && !IsSpace(v[0]) && !IsSpace(v[|v| - 1]) && '\n' !in v && !Contains(v, Marker(l))
  }

  /** The line "<label>: <value>" that the prompt asks the model to write. */
  function ReplyLine(l: string, v: string): string
  {
    Marker(l) + " " + v
  }

  /** Such a line has no line break and opens section `l` with text `v`. */
  lemma ReplyLineOpens(l: string, v: string)
    requires l in LabelSet && PlainValue(v, l)
    ensures '\n' !in ReplyLine(l, v)
    ensures Classify(ReplyLine(l, v)) == Opens(l, v)
  {
    ReplyLineStripped(l, v);
    OpensIff(ReplyLine(l, v), l);
    ReplyLineText(l, v);
  }

  lemma ReplyLineStripped(l: string, v: string)
    requires l in LabelSet && PlainValue(v, l)
    ensures '\n' !in ReplyLine(l, v)
    ensures Strip(ReplyLine(l, v)) == ReplyLine(l, v)
    ensures Marker(l) <= ReplyLine(l, v)
  {
    var line := ReplyLine(l, v);
    LabelChars(l);
    assert line[0] == l[0];
    assert line[|line| - 1] == v[|v| - 1];
    StripFixed(line);
  }

  /** Removing the marker from the line and stripping leaves the value. */
  lemma ReplyLineText(l: string, v: string)
    requires l in LabelSet && PlainValue(v, l)
    ensures Strip(RemoveAll(ReplyLine(l, v), Marker(l))) == v
  {
    var line := ReplyLine(l, v);
    var m := Marker(l);
    var rest := " " + v;
    LabelChars(l);
    assert line == m + rest;
    assert line[|m|..] == rest;
    assert RemoveAll(line, m) == RemoveAll(rest, m);
    assert !(m <= rest) by {
      assert m[0] == l[0] && rest[0] == ' ';
    }
    assert rest[1..] == v;
    assert !Contains(rest, m);
    assert RemoveAll(rest, m) == rest;
    assert TrimStart(rest) == TrimStart(v) == v;
    StripFixed(v);
  }

  /** The dictionary holding `vs` under the five labels, in order. */
  function FiveValues(vs: seq<string>): (m: map<string, string>)
    requires |vs| == |Labels|
    ensures m.Keys == LabelSet
  {
    map[PartOfSpeech := vs[0], Meaning := vs[1], Etymology := vs[2], Example := vs[3], Related := vs[4]]
  }

  /** The five reply lines, one per label, in the dictionary's order. */
  function ReplyLines(vs: seq<string>): (lines: seq<string>)
    requires |vs| == |Labels|
    ensures |lines| == |Labels|
  {
    seq(|Labels|, i requires 0 <= i < |Labels| => ReplyLine(Labels[i], vs[i]))
  }

  /** Five label lines in a row, one per label in the dictionary's order. */
  function OpenAll(vs: seq<string>): (lines: seq<Line>)
    requires |vs| == |Labels|
    ensures |lines| == |Labels|
    ensures forall i :: 0 <= i < |Labels| ==> lines[i] == Opens(Labels[i], vs[i])
  {
    seq(|Labels|, i requires 0 <= i < |Labels| => Opens(Labels[i], vs[i]))
  }

  /** Read from the start, such lines leave each label with its own line's text. */
  lemma OpenAllSection(vs: seq<string>, ls: seq<Line>, i: nat)
    requires |vs| == |Labels| && |ls| == |Labels| && i < |Labels|
    requires forall j :: 0 <= j < |Labels| ==> ls[j] == Opens(Labels[j], vs[j])
    ensures Labels[i] in Machine(Start, ls).sections
    ensures Machine(Start, ls).sections[Labels[i]] == vs[i]
  {
    var l := Labels[i];
    var pre, rest := ls[..i], ls[i + 1..];
    var st := Machine(Start, pre);
    assert Valid(st) && Machine(Start, ls) == Machine(st, [Opens(l, vs[i])] + [] + rest) by {
      OpenAllSplit(vs, ls, i);
      MachineConcat(Start, pre, [ls[i]] + [] + rest);
      MachineValid(Start, pre);
    }
    assert l in Machine(st, [Opens(l, vs[i])] + [] + rest).sections &&
      Machine(st, [Opens(l, vs[i])] + [] + rest).sections[l] == Join(Seed(vs[i]) + Texts([]), " ") by {
      OpenAllSplit(vs, ls, i);
      ResetOnRepeat(st, vs[i], [], rest, l);
    }
    assert Texts([]) == [];
    assert Join(Seed(vs[i]), " ") == vs[i];
  }

  /** Cut at label `i`, the lines before and after name only known labels, and none of
      those after names label `i` again. */
  lemma OpenAllSplit(vs: seq<string>, ls: seq<Line>, i: nat)
    requires |vs| == |Labels| && |ls| == |Labels| && i < |Labels|
    requires forall j :: 0 <= j < |Labels| ==> ls[j] == Opens(Labels[j], vs[j])
    ensures KnownLabels(ls[..i]) && KnownLabels(ls[i + 1..])
    ensures NeverOpens(ls[i + 1..], Labels[i])
    ensures ls == ls[..i] + ([ls[i]] + [] + ls[i + 1..])
  {
    assert KnownLabels(ls) by {
      LabelsDistinct();
    }
    assert KnownLabels(ls[..i]) && KnownLabels(ls[i + 1..]);
    assert NeverOpens(ls[i + 1..], Labels[i]) by {
      LaterLabelsDiffer(vs, ls, i);
    }
    assert ls == ls[..i] + ([ls[i]] + [] + ls[i + 1..]);
  }

  lemma LaterLabelsDiffer(vs: seq<string>, ls: seq<Line>, i: nat)
    requires |vs| == |Labels| && |ls| == |Labels| && i < |Labels|
    requires forall j :: 0 <= j < |Labels| ==> ls[j] == Opens(Labels[j], vs[j])
    ensures NeverOpens(ls[i + 1..], Labels[i])
  {
    LabelsDistinct();
    var rest := ls[i + 1..];
    forall k | 0 <= k < |rest| ensures !(rest[k].Opens? && rest[k].name == Labels[i]) {
      assert rest[k] == ls[i + 1 + k];
      assert Labels[i][0] != Labels[i + 1 + k][0];
    }
  }

  /** A reply that gives all five sections in order, one line each, parses to exactly
      those five values. */
  lemma FiveSectionReply(vs: seq<string>)
    requires |vs| == |Labels|
    requires forall i :: 0 <= i < |Labels| ==> PlainValue(vs[i], Labels[i])
    ensures Parse(Join(ReplyLines(vs), "\n")) ==
      FiveValues(vs)
  {
    var raws := ReplyLines(vs);
    assert Split(Join(raws, "\n"), '\n') == raws && Kinds(raws) == OpenAll(vs) by {
      forall i | 0 <= i < |Labels| ensures '\n' !in raws[i] && Classify(raws[i]) == Opens(Labels[i], vs[i]) {
        ReplyLineOpens(Labels[i], vs[i]);
      }
      SplitJoin(raws, '\n');
    }
    FiveOpens(vs);
  }

  lemma FiveOpens(vs: seq<string>)
    requires |vs| == |Labels|
    ensures Machine(Start, OpenAll(vs)).sections ==
      FiveValues(vs)
  {
    var result := Machine(Start, OpenAll(vs)).sections;
    MachineValid(Start, OpenAll(vs));
    forall i | 0 <= i < |Labels| ensures Labels[i] in result && result[Labels[i]] == vs[i] {
      OpenAllSection(vs, OpenAll(vs), i);
    }
    ByLabel(result, vs);
  }

  /** A dictionary over the five labels is determined by its value at each label. */
  lemma ByLabel(m: map<string, string>, vs: seq<string>)
    requires |vs| == |Labels| && m.Keys == LabelSet
    requires forall i :: 0 <= i < |Labels| ==> m[Labels[i]] == vs[i]
    ensures m == FiveValues(vs)
  {
    assert m[PartOfSpeech] == vs[0] && m[Meaning] == vs[1] && m[Etymology] == vs[2];
    assert m[Example] == vs[3] && m[Related] == vs[4];
  }
}

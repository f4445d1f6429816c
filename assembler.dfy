/** The line-level assembler: comment stripping, the label pass, operand
    classification and the program pass, over the lines of a `.tgpu` text
    (reading the file is not modelled). Labels are numbered by the
    instructions before them, so every label addresses the program the
    second pass emits. */
module Assembler {
  import opened Py
  import opened PyStr
  import opened Store

  // ---------------------------------------------------------------------
  // Comments
  // ---------------------------------------------------------------------

  /** `_strip_and_remove_comment(line)`: the line without surrounding
      whitespace and without anything from the first ';' on. */
  function CleanLine(line: string): (r: string)
    ensures ';' !in r && Stripped(r)
  {
    var l := Strip(line);
    if l == [] then []
    else if ';' in l then
      var code := Strip(BeforeSemicolon(l));
      StripKeepsOut(BeforeSemicolon(l), ';');
      code
    else l
  }

  /** `strip()` only removes characters. */
  lemma StripKeepsOut(s: string, c: char)
    requires c !in s
    ensures c !in Strip(s)
  {
    LStripSuffix(s);
  }

  /** Text without ';' is its own part before the first ';'. */
  lemma BeforeSemicolonOfClean(s: string)
    requires ';' !in s
    ensures BeforeSemicolon(s) == s
  {
    if s != [] {
      assert s[0] != ';' && ';' !in s[1..];
      BeforeSemicolonOfClean(s[1..]);
    }
  }

  /** The part before the first ';' of a + b, when a has no ';'. */
  lemma {:induction false} BeforeSemicolonAppend(a: string, b: string)
    requires ';' !in a
    ensures BeforeSemicolon(a + b) == a + BeforeSemicolon(b)
  {
    if a == [] {
      assert a + b == b;
    } else {
      assert (a + b)[0] == a[0] && (a + b)[1..] == a[1..] + b;
      assert ';' !in a[1..];
      BeforeSemicolonAppend(a[1..], b);
    }
  }

  /** Leading whitespace does not change what `strip()` keeps. */
  lemma StripSpacePrefix(x: string, y: string)
    requires AllSpace(x)
    ensures Strip(x + y) == Strip(y)
  {
    LStripSpacePrefix(x, y);
  }

  /** Every string is its leading whitespace, its stripped text and its
      trailing whitespace. */
  lemma StripSplits(s: string) returns (front: string, back: string)
    ensures s == front + Strip(s) + back && AllSpace(front) && AllSpace(back)
  {
    var l := LStrip(s);
    var m := Strip(s);
    assert m == RStrip(l);
    front := LeadingSpace(s);
    back := TrailingSpace(l);
    SeqAssoc(front, m, back);
  }

  lemma SeqAssoc(a: string, b: string, c: string)
    ensures a + b + c == a + (b + c)
  {
  }

  /** s is its leading whitespace followed by what `lstrip()` keeps. */
  lemma LeadingSpace(s: string) returns (front: string)
    ensures s == front + LStrip(s) && AllSpace(front)
  {
    LStripSuffix(s);
    var k := |s| - |LStrip(s)|;
    front := s[..k];
    assert s == front + s[k..];
  }

  /** s is what `rstrip()` keeps followed by its trailing whitespace. */
  lemma TrailingSpace(s: string) returns (back: string)
    ensures s == RStrip(s) + back && AllSpace(back)
  {
    var m := RStrip(s);
    back := s[|m|..];
    assert s == s[..|m|] + back;
  }

  /** The cleaned line is the text before the first ';', stripped. */
  lemma CleanLineIsCode(line: string)
    ensures CleanLine(line) == Strip(BeforeSemicolon(line))
  {
    var front, back := StripSplits(line);
    var m := Strip(line);
    assert ';' !in front by {
      assert forall k :: 0 <= k < |front| ==> IsSpace(front[k]);
    }
    assert ';' !in back by {
      assert forall k :: 0 <= k < |back| ==> IsSpace(back[k]);
    }
    assert line == front + (m + back);
    BeforeSemicolonAppend(front, m + back);
    StripSpacePrefix(front, BeforeSemicolon(m + back));
    if ';' in m {
      var k :| 0 <= k < |m| && m[k] == ';';
      BeforeSemicolonSplit(m, back, k);
    } else {
      BeforeSemicolonAppend(m, back);
      BeforeSemicolonOfClean(back);
      StripSpacePrefix(front, m + back);
      assert Strip(m + back) == m by {
        StripOfTrailingSpace(m, back);
      }
    }
  }

  /** When a has a ';', the part of a + b before the first one lies in a. */
  lemma {:induction false} BeforeSemicolonSplit(a: string, b: string, k: int)
    requires 0 <= k < |a| && a[k] == ';'
    ensures BeforeSemicolon(a + b) == BeforeSemicolon(a)
  {
    if a[0] != ';' {
      assert (a + b)[0] == a[0] && (a + b)[1..] == a[1..] + b;
      BeforeSemicolonSplit(a[1..], b, k - 1);
    }
  }

  /** Trailing whitespace after stripped text is dropped by `strip()`. */
  lemma StripOfTrailingSpace(m: string, back: string)
    requires Stripped(m) && AllSpace(back)
    ensures Strip(m + back) == m
  {
    if m == [] {
      assert m + back == back;
      AllSpaceStrips(back);
    } else {
      assert LStrip(m + back) == m + back;
      RStripSpaceSuffix(m, back);
    }
  }

  /** Whitespace alone strips to nothing. */
  lemma {:induction false} AllSpaceStrips(s: string)
    requires AllSpace(s)
    ensures LStrip(s) == [] && Strip(s) == []
  {
    if s != [] {
      AllSpaceStrips(s[1..]);
    }
  }

  /** `rstrip()` removes trailing whitespace after text ending in a
      non-space. */
  lemma {:induction false} RStripSpaceSuffix(m: string, back: string)
    requires m != [] && !IsSpace(m[|m| - 1]) && AllSpace(back)
    ensures RStrip(m + back) == m
    decreases |back|
  {
    if back == [] {
      assert m + back == m;
    } else {
      var mb := m + back;
      assert mb[..|mb| - 1] == m + back[..|back| - 1];
      RStripSpaceSuffix(m, back[..|back| - 1]);
    }
  }

  /** Cleaning a cleaned line changes nothing. */
  lemma CleanLineIdempotent(line: string)
    ensures CleanLine(CleanLine(line)) == CleanLine(line)
  {
    StripOfStripped(CleanLine(line));
  }

  // ---------------------------------------------------------------------
  // Pass one: labels
  // ---------------------------------------------------------------------

  /** What a line is once cleaned: empty, a label declaration `name:`, or
      an instruction. */
  datatype LineKind = Blank | Decl(name: string) | Code(text: string)

  function Kind(line: string): (k: LineKind)
    ensures k.Code? ==> k.text != [] && ';' !in k.text && Stripped(k.text)
  {
    var c := CleanLine(line);
    if c == [] then Blank
    else if EndsWithColon(c) then Decl(Strip(c[..|c| - 1]))
    else Code(c)
  }

  /** The kind of every line, in order. */
  function Kinds(lines: seq<string>): (ks: seq<LineKind>)
    ensures |ks| == |lines|
  {
    seq(|lines|, i requires 0 <= i < |lines| => Kind(lines[i]))
  }

  /** The label a line of this kind declares, if any. */
  function LabelOf(k: LineKind): Option<string> {
    if k.Decl? then Some(k.name) else None
  }

  /** The number of instruction lines among those of kinds ks. */
  function Count(ks: seq<LineKind>): nat {
    if ks == [] then 0
    else Count(ks[..|ks| - 1]) + (if ks[|ks| - 1].Code? then 1 else 0)
  }

  /** The state of the loop of `_collect_labels` after lines of kinds ks:
      the counter `pc` and the label table. */
  function LabelPass(ks: seq<LineKind>): (nat, map<string, int>) {
    if ks == [] then (0, map[])
    else
      var (pc, labels) := LabelPass(ks[..|ks| - 1]);
      match ks[|ks| - 1]
      case Blank => (pc, labels)
      case Decl(name) => (pc, labels[name := pc])
      case Code(_) => (pc + 1, labels)
  }

  /** `_collect_labels(lines)` */
  method CollectLabels(lines: seq<string>) returns (labels: map<string, int>)
    ensures labels == LabelPass(Kinds(lines)).1
  {
    ghost var ks := Kinds(lines);
    labels := map[];
    var pc := 0;
    var i := 0;
    while i < |lines|
      invariant 0 <= i <= |lines|
      invariant (pc, labels) == LabelPass(ks[..i])
    {
      LabelPassStep(ks, i);
      var line := CleanLine(lines[i]);
      assert ks[i] == Kind(lines[i]);
      if line != [] {
        if EndsWithColon(line) {
          var name := Strip(line[..|line| - 1]);
          assert ks[i] == Decl(name);
          labels := labels[name := pc];
        } else {
          assert ks[i].Code?;
          pc := pc + 1;
        }
      } else {
        assert ks[i] == Blank;
      }
      i := i + 1;
    }
    assert ks[..i] == ks;
  }

  /** One more line in the label pass: a declaration enters the counter's
      value under its name, an instruction moves the counter on. */
  lemma LabelPassStep(ks: seq<LineKind>, i: int)
    requires 0 <= i < |ks|
    ensures var (pc, labels) := LabelPass(ks[..i]);
      LabelPass(ks[..i + 1]) == match ks[i]
        case Blank => (pc, labels)
        case Decl(name) => (pc, labels[name := pc])
        case Code(_) => (pc + 1, labels)
  {
    assert ks[..i + 1][..i] == ks[..i];
  }

  /** The counter of the label pass counts the instruction lines, and no
      label is numbered past it. */
  lemma {:induction false} LabelPassCounts(ks: seq<LineKind>)
    ensures LabelPass(ks).0 == Count(ks)
    ensures forall l :: l in LabelPass(ks).1 ==> 0 <= LabelPass(ks).1[l] <= Count(ks)
  {
    if ks != [] {
      LabelPassCounts(ks[..|ks| - 1]);
    }
  }

  /** A name is in the label table exactly when some line declares it. */
  lemma {:induction false} LabelPassDeclares(ks: seq<LineKind>, name: string)
    ensures name in LabelPass(ks).1 <==> exists i :: 0 <= i < |ks| && LabelOf(ks[i]) == Some(name)
  {
    if ks != [] {
      var n := |ks| - 1;
      var init := ks[..n];
      LabelPassDeclares(init, name);
      if name in LabelPass(init).1 {
        var i :| 0 <= i < n && LabelOf(init[i]) == Some(name);
        assert ks[i] == init[i];
      }
      if i :| 0 <= i < n && LabelOf(ks[i]) == Some(name) {
        assert ks[i] == init[i];
      }
    }
  }

  /** The address of a label is the number of instruction lines before the
      LAST line that declares it: a later declaration overrides an earlier
      one. */
  lemma {:induction false} LabelPassLast(ks: seq<LineKind>, name: string, i: int)
    requires 0 <= i < |ks| && LabelOf(ks[i]) == Some(name)
    requires forall j :: i < j < |ks| ==> LabelOf(ks[j]) != Some(name)
    ensures name in LabelPass(ks).1 && LabelPass(ks).1[name] == Count(ks[..i])
  {
    var n := |ks| - 1;
    var init := ks[..n];
    if i == n {
      LabelPassCounts(init);
      assert init == ks[..i];
    } else {
      assert init[i] == ks[i];
      assert forall j :: i < j < n ==> init[j] == ks[j];
      LabelPassLast(init, name, i);
      assert init[..i] == ks[..i];
    }
  }

  // ---------------------------------------------------------------------
  // Operands
  // ---------------------------------------------------------------------

  /** One token of `_parse_args`: a token whose upper-case form starts with
      'R' is a register and the rest must be an integer; a token that is
      digits after its leading '-' signs is an integer literal; anything
      else is a label's address when the label is known and the bare name
      otherwise. `int()` failing is ValueError. */
  function Classify(token: string, labels: map<string, int>): (r: Result<Operand>)
    ensures r.Err? ==> r.error == ValueError
    ensures r.Ok? && r.value.Label? ==> r.value.name == token && token !in labels
  {
    var up := Upper(token);
    if |up| > 0 && up[0] == 'R' then
      match PyInt(token[1..])
      case Some(n) => Ok(Reg(n))
      case None => Err(ValueError)
    else if IsDigits(LStripMinus(token)) then
      match PyInt(token)
      case Some(n) => Ok(Imm(n))
      case None => Err(ValueError)
    else if token in labels then Ok(Imm(labels[token]))
    else Ok(Label(token))
  }

  /** `R<digits>` and `r<digits>` name the register with that number. */
  lemma ClassifyRegister(token: string, labels: map<string, int>)
    requires |token| > 0 && (token[0] == 'R' || token[0] == 'r') && IsDigits(token[1..])
    ensures Classify(token, labels) == Ok(Reg(DecimalValue(token[1..])))
  {
    PyIntOfDigits(token[1..]);
  }

  /** A token that starts with 'R' but is not followed by an integer, such
      as a label named `result`, is refused with ValueError rather than
      read as a label. */
  lemma ClassifyBadRegister(token: string, labels: map<string, int>)
    requires |token| > 0 && (token[0] == 'R' || token[0] == 'r') && PyInt(token[1..]).None?
    ensures Classify(token, labels) == Err(ValueError)
  {
  }

  /** The label name `result` reads as register "esult", which `int()`
      rejects: the whole assembly fails. */
  lemma ClassifyResult(labels: map<string, int>)
    ensures Classify("result", labels) == Err(ValueError)
  {
  }

  /** Digits are an immediate with their decimal value. */
  lemma ClassifyDigits(token: string, labels: map<string, int>)
    requires IsDigits(token)
    ensures Classify(token, labels) == Ok(Imm(DecimalValue(token)))
  {
    assert UpperChar(token[0]) == token[0];
    PyIntOfDigits(token);
  }

  /** '-' followed by digits is an immediate with the negated value. */
  lemma ClassifyNegative(token: string, labels: map<string, int>)
    requires |token| > 1 && token[0] == '-' && IsDigits(token[1..])
    ensures Classify(token, labels) == Ok(Imm(-(DecimalValue(token[1..]) as int)))
  {
    assert token[1..][0] != '-';
    assert LStripMinus(token) == token[1..];
    PyIntOfNegativeDigits(token);
  }

  /** Two or more leading '-' pass the digit test, since `lstrip('-')`
      removes them all, but not `int()`: ValueError. */
  lemma ClassifyDoubleMinus(token: string, labels: map<string, int>)
    requires |token| > 1 && token[0] == '-' && token[1] == '-' && IsDigits(LStripMinus(token))
    ensures Classify(token, labels) == Err(ValueError)
  {
    PyIntOfDoubleMinus(token);
  }

  /** The register number is read by `int()`, so it may carry a sign:
      `R-1` is register -1, which Python's indexing takes as the last one. */
  lemma ClassifySignedRegister(token: string, labels: map<string, int>)
    requires |token| > 2 && (token[0] == 'R' || token[0] == 'r') && token[1] == '-' && IsDigits(token[2..])
    ensures Classify(token, labels) == Ok(Reg(-(DecimalValue(token[2..]) as int)))
  {
    assert token[1..][1..] == token[2..];
    PyIntOfNegativeDigits(token[1..]);
  }

  /** Any other token is replaced by its label's address when the label
      pass found it, and is kept as a name otherwise. */
  lemma ClassifyName(token: string, labels: map<string, int>)
    requires |token| > 0 && UpperChar(token[0]) != 'R' && !IsDigits(LStripMinus(token))
    ensures Classify(token, labels) == Ok(if token in labels then Imm(labels[token]) else Label(token))
  {
  }

  /** The values of rs in order when all of them are Ok, and otherwise the
      first error among them: what a loop that appends results and stops at
      the first exception returns. */
  function Gather<T>(rs: seq<Result<T>>): Result<seq<T>> {
    if rs == [] then Ok([])
    else
      var init := Gather(rs[..|rs| - 1]);
      if init.Err? then init
      else
        match rs[|rs| - 1]
        case Err(e) => Err(e)
        case Ok(v) => Ok(init.value + [v])
  }

  /** Gathering one more result. */
  lemma GatherAppend<T>(rs: seq<Result<T>>, r: Result<T>)
    ensures Gather(rs + [r]) ==
              if Gather(rs).Err? then Gather(rs)
              else if r.Err? then Err(r.error)
              else Ok(Gather(rs).value + [r.value])
  {
    assert (rs + [r])[..|rs|] == rs;
  }

  /** Once a prefix fails, every extension fails the same way. */
  lemma {:induction false} GatherErrorStays<T>(rs: seq<Result<T>>, ss: seq<Result<T>>)
    requires Gather(rs).Err?
    ensures Gather(rs + ss) == Gather(rs)
    decreases |ss|
  {
    if ss == [] {
      assert rs + ss == rs;
    } else {
      var n := |ss| - 1;
      assert rs + ss == (rs + ss[..n]) + [ss[n]];
      GatherErrorStays(rs, ss[..n]);
      GatherAppend(rs + ss[..n], ss[n]);
    }
  }

  /** Gathering entry j after the first j gathered to args: an error there
      is the error of the whole sequence, a value extends args. */
  lemma GatherStep<T>(cs: seq<Result<T>>, j: int, args: seq<T>)
    requires 0 <= j < |cs| && Gather(cs[..j]) == Ok(args)
    ensures cs[j].Err? ==> Gather(cs) == Err(cs[j].error)
    ensures cs[j].Ok? ==> Gather(cs[..j + 1]) == Ok(args + [cs[j].value])
  {
    assert cs[..j + 1] == cs[..j] + [cs[j]];
    GatherAppend(cs[..j], cs[j]);
    if cs[j].Err? {
      GatherErrorStays(cs[..j + 1], cs[j + 1..]);
      assert cs[..j + 1] + cs[j + 1..] == cs;
    }
  }

  /** Gathering succeeds exactly when every result is Ok, and then yields
      every value in order. */
  lemma {:induction false} GatherEach<T>(rs: seq<Result<T>>)
    ensures Gather(rs).Ok? <==> forall k :: 0 <= k < |rs| ==> rs[k].Ok?
    ensures Gather(rs).Ok? ==>
              |Gather(rs).value| == |rs| && forall k :: 0 <= k < |rs| ==> Gather(rs).value[k] == rs[k].value
  {
    if rs != [] {
      var n := |rs| - 1;
      var init := rs[..n];
      GatherEach(init);
      assert forall k :: 0 <= k < n ==> init[k] == rs[k];
    }
  }

  /** f applied to every element of xs, in order. */
  function Mapped<A, B>(xs: seq<A>, f: A -> B): (ys: seq<B>)
    ensures |ys| == |xs|
  {
    if xs == [] then [] else Mapped(xs[..|xs| - 1], f) + [f(xs[|xs| - 1])]
  }

  /** Entry k of the mapped sequence is f of element k. */
  lemma {:induction false} MappedAt<A, B>(xs: seq<A>, f: A -> B, k: int)
    requires 0 <= k < |xs|
    ensures Mapped(xs, f)[k] == f(xs[k])
  {
    var n := |xs| - 1;
    if k < n {
      assert xs[..n][k] == xs[k];
      MappedAt(xs[..n], f, k);
    }
  }

  /** The operand classifier for the label table of pass one. */
  function Classifier(labels: map<string, int>): string -> Result<Operand> {
    token => Classify(token, labels)
  }

  /** The classification of every token of ts, in order. */
  function Classified(ts: seq<string>, labels: map<string, int>): (cs: seq<Result<Operand>>)
    ensures |cs| == |ts|
  {
    Mapped(ts, Classifier(labels))
  }

  /** Token k's classification is entry k. */
  lemma ClassifiedAt(ts: seq<string>, labels: map<string, int>, k: int)
    requires 0 <= k < |ts|
    ensures Classified(ts, labels)[k] == Classify(ts[k], labels)
  {
    MappedAt(ts, Classifier(labels), k);
  }

  /** The tokens after the opcode: `parts[1:]`, empty when parts is. */
  function Operands(parts: seq<string>): seq<string> {
    if parts == [] then [] else parts[1..]
  }

  /** `_parse_args(parts, labels)`: the operands of the tokens after the
      opcode, classified left to right. */
  method ParseArgs(parts: seq<string>, labels: map<string, int>) returns (r: Result<seq<Operand>>)
    ensures r == Gather(Classified(Operands(parts), labels))
  {
    ghost var cs := Classified(Operands(parts), labels);
    var args := [];
    var i := 1;
    while i < |parts|
      invariant 1 <= i <= |parts| || (parts == [] && i == 1)
      invariant Gather(cs[..i - 1]) == Ok(args)
    {
      var o := Classify(parts[i], labels);
      ClassifiedAt(Operands(parts), labels, i - 1);
      GatherStep(cs, i - 1, args);
      if o.Err? {
        return Err(o.error);
      }
      args := args + [o.value];
      i := i + 1;
    }
    assert parts != [] ==> cs[..i - 1] == cs;
    return Ok(args);
  }

  // ---------------------------------------------------------------------
  // Pass two: instructions
  // ---------------------------------------------------------------------

  /** One instruction line of `assemble_file`: commas count as spaces, the
      first word upper-cased is the opcode and the other words are its
      operands. A line of commas alone has no first word: IndexError. */
  function ParseLine(code: string, labels: map<string, int>): Result<Instr> {
    var parts := Split(ReplaceCommas(code));
    if parts == [] then Err(IndexError)
    else
      var args :- Gather(Classified(parts[1..], labels));
      Ok(Instr(Upper(parts[0]), args))
  }

  /** A line parses exactly when it has a first word and every later word
      classifies; the opcode is the first word upper-cased and the operands
      are the later words' classifications, in order. */
  lemma ParseLineWords(code: string, labels: map<string, int>)
    ensures var parts := Split(ReplaceCommas(code));
      && (ParseLine(code, labels).Ok? <==>
            parts != [] && forall k :: 1 <= k < |parts| ==> Classify(parts[k], labels).Ok?)
      && (ParseLine(code, labels).Ok? ==>
            && ParseLine(code, labels).value.op == Upper(parts[0])
            && |ParseLine(code, labels).value.args| == |parts| - 1
            && forall k :: 1 <= k < |parts| ==>
                 ParseLine(code, labels).value.args[k - 1] == Classify(parts[k], labels).value)
  {
    var parts := Split(ReplaceCommas(code));
    if parts != [] {
      var cs := Classified(parts[1..], labels);
      GatherEach(cs);
      forall j | 0 <= j < |cs|
        ensures cs[j] == Classify(parts[j + 1], labels)
      {
        ClassifiedAt(parts[1..], labels, j);
      }
      assert forall k :: 1 <= k < |parts| ==> cs[k - 1] == Classify(parts[k], labels);
    }
  }

  /** f applied to the text of every instruction line of kinds ks, in order. */
  function CodeMap<T>(ks: seq<LineKind>, f: string -> T): seq<T> {
    if ks == [] then []
    else
      CodeMap(ks[..|ks| - 1], f) +
      (match ks[|ks| - 1] case Code(text) => [f(text)] case _ => [])
  }

  /** The line parser of pass two, for the label table of pass one. */
  function Parser(labels: map<string, int>): string -> Result<Instr> {
    code => ParseLine(code, labels)
  }

  /** The parse of every instruction line of kinds ks, in order. */
  function Parsed(ks: seq<LineKind>, labels: map<string, int>): seq<Result<Instr>> {
    CodeMap(ks, Parser(labels))
  }

  /** One result per instruction line, the one of line i at the number of
      instruction lines before it. */
  lemma {:induction false} CodeMapAt<T>(ks: seq<LineKind>, f: string -> T, i: int)
    requires 0 <= i < |ks| && ks[i].Code?
    ensures |CodeMap(ks, f)| == Count(ks) && Count(ks[..i]) < Count(ks)
    ensures CodeMap(ks, f)[Count(ks[..i])] == f(ks[i].text)
  {
    var n := |ks| - 1;
    var init := ks[..n];
    if i == n {
      CodeMapCount(init, f);
      assert init == ks[..i];
    } else {
      assert init[i] == ks[i] && init[..i] == ks[..i];
      CodeMapAt(init, f, i);
    }
  }

  /** One result per instruction line. */
  lemma {:induction false} CodeMapCount<T>(ks: seq<LineKind>, f: string -> T)
    ensures |CodeMap(ks, f)| == Count(ks)
  {
    if ks != [] {
      CodeMapCount(ks[..|ks| - 1], f);
    }
  }

  /** The program pass emits one parse per instruction line, the one of
      line i at the number of instruction lines before it. */
  lemma ParsedAt(ks: seq<LineKind>, labels: map<string, int>, i: int)
    requires 0 <= i < |ks| && ks[i].Code?
    ensures |Parsed(ks, labels)| == Count(ks) && Count(ks[..i]) < Count(ks)
    ensures Parsed(ks, labels)[Count(ks[..i])] == ParseLine(ks[i].text, labels)
  {
    CodeMapAt(ks, Parser(labels), i);
  }

  /** One parse per instruction line. */
  lemma ParsedCount(ks: seq<LineKind>, labels: map<string, int>)
    ensures |Parsed(ks, labels)| == Count(ks)
  {
    CodeMapCount(ks, Parser(labels));
  }

  /** The results for a prefix of the lines start the results for all of
      them. */
  lemma {:induction false} CodeMapPrefix<T>(ks: seq<LineKind>, n: nat, f: string -> T)
    requires n <= |ks|
    ensures CodeMap(ks[..n], f) <= CodeMap(ks, f)
    decreases |ks|
  {
    if n < |ks| {
      var m := |ks| - 1;
      assert ks[..m][..n] == ks[..n];
      CodeMapPrefix(ks[..m], n, f);
    } else {
      assert ks[..n] == ks;
    }
  }

  /** What `assemble_file` returns for a file whose lines are of kinds ks:
      the program of the second pass and the label table of the first. */
  function Assembled(ks: seq<LineKind>): Result<(seq<Instr>, map<string, int>)> {
    var labels := LabelPass(ks).1;
    var program :- Gather(Parsed(ks, labels));
    Ok((program, labels))
  }

  /** `assemble_file(path)` on the lines the file holds. */
  method Assemble(lines: seq<string>) returns (r: Result<(seq<Instr>, map<string, int>)>)
    ensures r == Assembled(Kinds(lines))
  {
    ghost var ks := Kinds(lines);
    var labels := CollectLabels(lines);
    var program := [];
    var i := 0;
    while i < |lines|
      invariant 0 <= i <= |lines|
      invariant Gather(Parsed(ks[..i], labels)) == Ok(program)
    {
      ParsedStep(ks, i, labels);
      var line := CleanLine(lines[i]);
      assert ks[i] == Kind(lines[i]);
      if line != [] && !EndsWithColon(line) {
        assert ks[i] == Code(line);
        var parts := Split(ReplaceCommas(line));
        GatherAppend(Parsed(ks[..i], labels), ParseLine(line, labels));
        if parts == [] {
          ParseFails(ks, i + 1, labels);
          return Err(IndexError);
        }
        var op := Upper(parts[0]);
        var args := ParseArgs(parts, labels);
        if args.Err? {
          ParseFails(ks, i + 1, labels);
          return Err(args.error);
        }
        assert Operands(parts) == parts[1..];
        assert ParseLine(line, labels) == Ok(Instr(op, args.value));
        program := program + [Instr(op, args.value)];
      } else {
        assert !ks[i].Code?;
      }
      i := i + 1;
    }
    assert ks[..i] == ks;
    return Ok((program, labels));
  }

  /** Line i adds its parse to the parses of the lines before it when it is
      an instruction line, and nothing otherwise. */
  lemma ParsedStep(ks: seq<LineKind>, i: int, labels: map<string, int>)
    requires 0 <= i < |ks|
    ensures ks[i].Code? ==> Parsed(ks[..i + 1], labels) == Parsed(ks[..i], labels) + [ParseLine(ks[i].text, labels)]
    ensures !ks[i].Code? ==> Parsed(ks[..i + 1], labels) == Parsed(ks[..i], labels)
  {
    assert ks[..i + 1][..i] == ks[..i];
    assert Parsed(ks[..i], labels) + [] == Parsed(ks[..i], labels);
  }

  /** A failure in the first n lines is the failure of the whole file. */
  lemma ParseFails(ks: seq<LineKind>, n: nat, labels: map<string, int>)
    requires n <= |ks| && Gather(Parsed(ks[..n], labels)).Err?
    ensures Gather(Parsed(ks, labels)) == Gather(Parsed(ks[..n], labels))
  {
    CodeMapFails(ks, n, Parser(labels));
  }

  /** A failure among the results of the first n lines is the failure of
      the results of all of them. */
  lemma CodeMapFails<T>(ks: seq<LineKind>, n: nat, f: string -> Result<T>)
    requires n <= |ks| && Gather(CodeMap(ks[..n], f)).Err?
    ensures Gather(CodeMap(ks, f)) == Gather(CodeMap(ks[..n], f))
  {
    var pre := CodeMap(ks[..n], f);
    var all := CodeMap(ks, f);
    CodeMapPrefix(ks, n, f);
    assert all == pre + all[|pre|..];
    GatherErrorStays(pre, all[|pre|..]);
  }

  // ---------------------------------------------------------------------
  // What assembly produces
  // ---------------------------------------------------------------------

  /** Lines that hold no instruction do not move the instruction count. */
  lemma {:induction false} CountSkip(ks: seq<LineKind>, i: int, j: int)
    requires 0 <= i <= j <= |ks| && forall k :: i <= k < j ==> !ks[k].Code?
    ensures Count(ks[..j]) == Count(ks[..i])
    decreases j - i
  {
    if i < j {
      assert ks[..j][..j - 1] == ks[..j - 1];
      CountSkip(ks, i, j - 1);
    }
  }

  /** Every result belongs to some instruction line. */
  lemma {:induction false} CodeMapFrom<T>(ks: seq<LineKind>, f: string -> T, m: int)
    requires 0 <= m < |CodeMap(ks, f)|
    ensures exists i :: 0 <= i < |ks| && ks[i].Code? && CodeMap(ks, f)[m] == f(ks[i].text)
  {
    var n := |ks| - 1;
    var init := ks[..n];
    if m < |CodeMap(init, f)| {
      CodeMapFrom(init, f, m);
      var i :| 0 <= i < n && init[i].Code? && CodeMap(init, f)[m] == f(init[i].text);
      assert ks[i] == init[i];
    } else {
      assert ks[n].Code? && CodeMap(ks, f)[m] == f(ks[n].text);
    }
  }

  /** Every parse belongs to some instruction line. */
  lemma ParsedFrom(ks: seq<LineKind>, labels: map<string, int>, m: int)
    requires 0 <= m < |Parsed(ks, labels)|
    ensures exists i :: 0 <= i < |ks| && ks[i].Code? && Parsed(ks, labels)[m] == ParseLine(ks[i].text, labels)
  {
    CodeMapFrom(ks, Parser(labels), m);
  }

  /** Assembly succeeds exactly when every instruction line parses with the
      labels of the first pass. */
  lemma AssembleOk(ks: seq<LineKind>)
    ensures Assembled(ks).Ok? <==>
              forall i :: 0 <= i < |ks| && ks[i].Code? ==> ParseLine(ks[i].text, LabelPass(ks).1).Ok?
  {
    var labels := LabelPass(ks).1;
    var ps := Parsed(ks, labels);
    GatherEach(ps);
    if forall i :: 0 <= i < |ks| && ks[i].Code? ==> ParseLine(ks[i].text, labels).Ok? {
      forall m | 0 <= m < |ps|
        ensures ps[m].Ok?
      {
        ParsedFrom(ks, labels, m);
      }
    }
    forall i | 0 <= i < |ks| && ks[i].Code? && Gather(ps).Ok?
      ensures ParseLine(ks[i].text, labels).Ok?
    {
      ParsedAt(ks, labels, i);
    }
  }

  /** The program holds one instruction per instruction line, in order: the
      instruction of line i sits at the number of instruction lines before
      it. Every label addresses an instruction of the program or the end of
      the program. */
  lemma AssembledProgram(ks: seq<LineKind>)
    requires Assembled(ks).Ok?
    ensures var (program, labels) := Assembled(ks).value;
      && |program| == Count(ks)
      && labels == LabelPass(ks).1
      && (forall name :: name in labels ==> 0 <= labels[name] <= |program|)
      && forall i :: 0 <= i < |ks| && ks[i].Code? ==>
           Count(ks[..i]) < |program| && ParseLine(ks[i].text, labels) == Ok(program[Count(ks[..i])])
  {
    var labels := LabelPass(ks).1;
    var ps := Parsed(ks, labels);
    GatherEach(ps);
    ParsedCount(ks, labels);
    LabelPassCounts(ks);
    forall i | 0 <= i < |ks| && ks[i].Code?
      ensures Count(ks[..i]) < |ps| && ps[Count(ks[..i])] == ParseLine(ks[i].text, labels)
    {
      ParsedAt(ks, labels, i);
    }
  }

  /** A label addresses the first instruction after the last line that
      declares it. */
  lemma LabelAddressesNext(ks: seq<LineKind>, name: string, i: int, j: int)
    requires Assembled(ks).Ok?
    requires 0 <= i < j < |ks| && LabelOf(ks[i]) == Some(name)
    requires forall k :: i < k < |ks| ==> LabelOf(ks[k]) != Some(name)
    requires ks[j].Code? && forall k :: i < k < j ==> !ks[k].Code?
    ensures var (program, labels) := Assembled(ks).value;
      && name in labels && 0 <= labels[name] < |program|
      && ParseLine(ks[j].text, labels) == Ok(program[labels[name]])
  {
    var labels := LabelPass(ks).1;
    var ps := Parsed(ks, labels);
    LabelPassLast(ks, name, i);
    assert !ks[i].Code?;
    CountSkip(ks, i, j);
    ParsedAt(ks, labels, j);
    GatherEach(ps);
  }

  /** A label after which no instruction follows addresses the end of the
      program. */
  lemma LabelAtEnd(ks: seq<LineKind>, name: string, i: int)
    requires Assembled(ks).Ok?
    requires 0 <= i < |ks| && LabelOf(ks[i]) == Some(name)
    requires forall k :: i < k < |ks| ==> !ks[k].Code? && LabelOf(ks[k]) != Some(name)
    ensures var (program, labels) := Assembled(ks).value;
      name in labels && labels[name] == |program|
  {
    var labels := LabelPass(ks).1;
    var ps := Parsed(ks, labels);
    LabelPassLast(ks, name, i);
    CountSkip(ks, i, |ks|);
    assert ks[..|ks|] == ks;
    ParsedCount(ks, labels);
    GatherEach(ps);
  }
}

/** Reading and printing CVSS 4.0 vector strings: the calculator keeps the vector as its only state. */
module CvssVector {
  import opened Text

  // ---------------------------------------------------------------------------
  // Splitting
  // ---------------------------------------------------------------------------

  /** `s.split(c)` for a one-character separator. */
  function SplitOn(s: string, c: char): (r: seq<string>)
    ensures r != []
  {
    if s == "" then [""]
    else
      var rest := SplitOn(s[1..], c);
      if s[0] == c then [""] + rest else [[s[0]] + rest[0]] + rest[1..]
  }

  lemma SplitStep(s: string, c: char)
    requires s != ""
    ensures var rest := SplitOn(s[1..], c);
            SplitOn(s, c) == if s[0] == c then [""] + rest else [[s[0]] + rest[0]] + rest[1..]
  {
  }

  lemma {:induction false} SplitAppend(a: string, b: string, c: char)
    ensures SplitOn(a + [c] + b, c) == SplitOn(a, c) + SplitOn(b, c)
    decreases a
  {
    hide SplitOn;
    var s := a + [c] + b;
    SplitStep(s, c);
    if a == "" {
      assert s[1..] == b && s[0] == c;
      SplitEmpty(c);
    } else {
      SplitStep(a, c);
      SplitAppend(a[1..], b, c);
      assert s[1..] == a[1..] + [c] + b && s[0] == a[0];
    }
  }

  lemma SplitEmpty(c: char)
    ensures SplitOn("", c) == [""]
  {
  }

  lemma {:induction false} SplitFree(s: string, c: char)
    requires c !in s
    ensures SplitOn(s, c) == [s]
  {
    if s != "" {
      SplitFree(s[1..], c);
      assert [s[0]] + s[1..] == s;
    }
  }

  /** No part holds the separator. */
  lemma {:induction false} SplitParts(s: string, c: char)
    ensures forall i | 0 <= i < |SplitOn(s, c)| :: c !in SplitOn(s, c)[i]
  {
    if s != "" {
      SplitParts(s[1..], c);
    }
  }

  function Join(parts: seq<string>, c: char): string
    requires parts != []
  {
    if |parts| == 1 then parts[0] else parts[0] + [c] + Join(parts[1..], c)
  }

  /** Splitting is the inverse of joining. */
  lemma {:induction false} JoinSplit(s: string, c: char)
    ensures Join(SplitOn(s, c), c) == s
  {
    if s != "" {
      JoinSplit(s[1..], c);
      var rest := SplitOn(s[1..], c);
      if s[0] == c {
        assert ([""] + rest)[1..] == rest;
      } else {
        var r := [[s[0]] + rest[0]] + rest[1..];
        assert r[1..] == rest[1..];
        assert |rest| > 1 ==> Join(r, c) == [s[0]] + (rest[0] + [c] + Join(rest[1..], c));
      }
    }
  }

  lemma {:induction false} SplitJoin(parts: seq<string>, c: char)
    requires parts != [] && forall i | 0 <= i < |parts| :: c !in parts[i]
    ensures SplitOn(Join(parts, c), c) == parts
  {
    hide SplitOn;
    SplitFree(parts[0], c);
    if |parts| > 1 {
      SplitJoin(parts[1..], c);
      SplitAppend(parts[0], Join(parts[1..], c), c);
    }
  }

  // ---------------------------------------------------------------------------
  // Metrics
  // ---------------------------------------------------------------------------

  datatype Metric = AV | AC | AT | PR | UI | VC | VI | VA | SC | SI | SA

  function Name(m: Metric): string {
    match m
    case AV => "AV" case AC => "AC" case AT => "AT" case PR => "PR" case UI => "UI"
    case VC => "VC" case VI => "VI" case VA => "VA" case SC => "SC" case SI => "SI" case SA => "SA"
  }

  /** Only an ASCII letter lower-cases to a letter of a metric name. */
  function LowerChar(c: char): char {
    if 'A' <= c <= 'Z' then c - 'A' + 'a' else c
  }

  function Lower(s: string): string {
    if s == "" then "" else [LowerChar(s[0])] + Lower(s[1..])
  }

  function MetricCalled(key: string): Option<Metric> {
    if key == "av" then Some(AV) else if key == "ac" then Some(AC) else if key == "at" then Some(AT)
    else if key == "pr" then Some(PR) else if key == "ui" then Some(UI) else if key == "vc" then Some(VC)
    else if key == "vi" then Some(VI) else if key == "va" then Some(VA) else if key == "sc" then Some(SC)
    else if key == "si" then Some(SI) else if key == "sa" then Some(SA) else None
  }

  /** The lower-case name. */
  function Key(m: Metric): string {
    match m
    case AV => "av" case AC => "ac" case AT => "at" case PR => "pr" case UI => "ui"
    case VC => "vc" case VI => "vi" case VA => "va" case SC => "sc" case SI => "si" case SA => "sa"
  }

  lemma CalledExactly(key: string, m: Metric)
    ensures MetricCalled(key) == Some(m) <==> key == Key(m)
  {
  }

  lemma NameKey(m: Metric)
    ensures Lower(Name(m)) == Key(m) && |Name(m)| == 2
    ensures 'A' <= Name(m)[0] <= 'Z' && 'A' <= Name(m)[1] <= 'Z'
  {
    hide Lower;
    LowerPair(Name(m)[0], Name(m)[1]);
    assert Name(m) == [Name(m)[0], Name(m)[1]];
  }

  lemma NameReads(m: Metric)
    ensures MetricCalled(Lower(Name(m))) == Some(m)
    ensures Name(m) != "" && ':' !in Name(m) && '/' !in Name(m)
  {
    hide Lower, MetricCalled, Name, Key;
    CalledExactly(Key(m), m);
    NameKey(m);
    assert Name(m) == [Name(m)[0], Name(m)[1]];
  }

  /** The same letters, in either case; `b` is in upper case. */
  predicate SameLetters(a: string, b: string) {
    |a| == |b| && forall i | 0 <= i < |a| :: a[i] == b[i] || ('A' <= b[i] <= 'Z' && a[i] == b[i] - 'A' + 'a')
  }

  lemma CalledBySameLetters(key: string, m: Metric)
    ensures MetricCalled(Lower(key)) == Some(m) <==> SameLetters(key, Name(m))
  {
    hide Lower, MetricCalled, Name, Key;
    CalledExactly(Lower(key), m);
    NameKey(m);
    LowerLength(key);
    LowerPair(Name(m)[0], Name(m)[1]);
    assert Name(m) == [Name(m)[0], Name(m)[1]];
    if |key| == 2 {
      LowerPair(key[0], key[1]);
      assert key == [key[0], key[1]];
    }
  }

  lemma {:induction false} LowerLength(s: string)
    ensures |Lower(s)| == |s|
  {
    if s != "" {
      LowerLength(s[1..]);
    }
  }

  lemma LowerPair(a: char, b: char)
    ensures Lower([a, b]) == [LowerChar(a), LowerChar(b)]
  {
    assert [b][1..] == "";
    assert Lower([b]) == [LowerChar(b)];
    assert [a, b][1..] == [b];
  }

  /** The value of each metric. */
  datatype Vals = Vals(
    av: string, ac: string, at: string, pr: string, ui: string,
    vc: string, vi: string, va: string, sc: string, si: string, sa: string)
  {
    function Get(m: Metric): string {
      match m
      case AV => av case AC => ac case AT => at case PR => pr case UI => ui
      case VC => vc case VI => vi case VA => va case SC => sc case SI => si case SA => sa
    }

    function Set(m: Metric, x: string): (r: Vals)
      ensures r.Get(m) == x && forall n: Metric | n != m :: r.Get(n) == Get(n)
    {
      match m
      case AV => this.(av := x) case AC => this.(ac := x) case AT => this.(at := x)
      case PR => this.(pr := x) case UI => this.(ui := x) case VC => this.(vc := x)
      case VI => this.(vi := x) case VA => this.(va := x) case SC => this.(sc := x)
      case SI => this.(si := x) case SA => this.(sa := x)
    }
  }

  const DEFAULTS := Vals("N", "L", "N", "N", "N", "H", "H", "H", "N", "N", "N")

  // ---------------------------------------------------------------------------
  // Reading
  // ---------------------------------------------------------------------------

  datatype Entry = Entry(metric: Metric, value: string)

  /** The first two components of a part, if they name a metric and give it a value. */
  function ReadPart(part: string): Option<Entry> {
    var kv := SplitOn(part, ':');
    if |kv| >= 2 && kv[0] != "" && kv[1] != "" && MetricCalled(Lower(kv[0])).Some? then
      Some(Entry(MetricCalled(Lower(kv[0])).value, kv[1]))
    else
      None
  }

  /**
   * Which parts give a metric a value: of the pieces between colons the first is its name, in either case, and the
   * second the value, which is not empty. Further pieces are ignored.
   */
  lemma ReadPartMeaning(part: string, m: Metric, x: string)
    ensures ReadPart(part) == Some(Entry(m, x)) <==>
            exists pieces: seq<string> ::
              && |pieces| >= 2 && (forall i | 0 <= i < |pieces| :: ':' !in pieces[i]) && Join(pieces, ':') == part
              && SameLetters(pieces[0], Name(m)) && pieces[1] == x != ""
  {
    hide SplitOn, Lower, MetricCalled, Name, Join, SameLetters;
    var kv := SplitOn(part, ':');
    JoinSplit(part, ':');
    SplitParts(part, ':');
    CalledBySameLetters(kv[0], m);
    NoName(m);
    forall pieces: seq<string> |
        |pieces| >= 2 && (forall i | 0 <= i < |pieces| :: ':' !in pieces[i]) && Join(pieces, ':') == part
      ensures pieces == kv
    {
      SplitJoin(pieces, ':');
    }
  }

  lemma NoName(m: Metric)
    ensures !SameLetters("", Name(m))
  {
    hide Name;
    NameKey(m);
  }

  predicate Gives(part: string, m: Metric) {
    ReadPart(part).Some? && ReadPart(part).value.metric == m
  }

  /** The value that the last of the parts about `m` gives it. */
  function LastValue(parts: seq<string>, m: Metric): Option<string> {
    if parts == [] then None
    else
      var last := parts[|parts| - 1];
      if Gives(last, m) then Some(ReadPart(last).value.value) else LastValue(parts[..|parts| - 1], m)
  }

  lemma {:induction false} LastValueMeaning(parts: seq<string>, m: Metric)
    ensures LastValue(parts, m).None? <==> forall i | 0 <= i < |parts| :: !Gives(parts[i], m)
    ensures LastValue(parts, m).Some? ==>
              exists i | 0 <= i < |parts| ::
                && Gives(parts[i], m) && ReadPart(parts[i]).value.value == LastValue(parts, m).value
                && forall j | i < j < |parts| :: !Gives(parts[j], m)
  {
    hide ReadPart;
    if parts != [] {
      var front := parts[..|parts| - 1];
      LastValueMeaning(front, m);
      if !Gives(parts[|parts| - 1], m) && LastValue(front, m).Some? {
        var i :| 0 <= i < |front| && Gives(front[i], m) && ReadPart(front[i]).value.value == LastValue(front, m).value
          && forall j | i < j < |front| :: !Gives(front[j], m);
        assert Gives(parts[i], m);
      }
    }
  }

  lemma LastValueSnoc(parts: seq<string>, part: string, m: Metric)
    ensures LastValue(parts + [part], m) == if Gives(part, m) then Some(ReadPart(part).value.value) else LastValue(parts, m)
  {
    hide ReadPart;
    assert (parts + [part])[..|parts|] == parts;
  }

  /** Reading a vector: each metric takes its last value, or its default. */
  ghost predicate Reads(vector: string, vals: Vals) {
    forall m: Metric :: vals.Get(m) == ValueIn(vector, m)
  }

  function ValueIn(vector: string, m: Metric): string {
    var last := LastValue(SplitOn(vector, '/'), m);
    if last.Some? then last.value else DEFAULTS.Get(m)
  }

  /** A vector has one reading. */
  lemma ReadsUnique(vector: string, v: Vals, w: Vals)
    requires Reads(vector, v) && Reads(vector, w)
    ensures v == w
  {
    hide ValueIn;
    assert v.Get(AV) == w.Get(AV) && v.Get(AC) == w.Get(AC) && v.Get(AT) == w.Get(AT) && v.Get(PR) == w.Get(PR);
    assert v.Get(UI) == w.Get(UI) && v.Get(VC) == w.Get(VC) && v.Get(VI) == w.Get(VI) && v.Get(VA) == w.Get(VA);
    assert v.Get(SC) == w.Get(SC) && v.Get(SI) == w.Get(SI) && v.Get(SA) == w.Get(SA);
  }

  lemma NothingGiven()
    ensures forall m: Metric :: LastValue([], m) == None
  {
  }

  lemma NothingRead()
    ensures Reads("", DEFAULTS)
  {
    hide Vals.Get;
    assert SplitOn("", '/') == [""] && ReadPart("") == None;
    forall m: Metric
      ensures LastValue([""], m) == None
    {
      LastValueSnoc([], "", m);
      assert [] + [""] == [""];
    }
  }

  method ParseCvss4Vector(vector: string) returns (vals: Vals)
    ensures Reads(vector, vals)
  {
    hide ReadPart, SplitOn, LastValue, Vals.Get;
    vals := DEFAULTS;
    if vector == "" {
      NothingRead();
      return;
    }
    var parts := SplitOn(vector, '/');
    NothingGiven();
    for i := 0 to |parts|
      invariant forall m: Metric ::
                  vals.Get(m) == if LastValue(parts[..i], m).Some? then LastValue(parts[..i], m).value else DEFAULTS.Get(m)
    {
      assert parts[..i + 1] == parts[..i] + [parts[i]];
      forall m: Metric {
        LastValueSnoc(parts[..i], parts[i], m);
      }
      var entry := ReadPart(parts[i]);
      if entry.Some? {
        vals := vals.Set(entry.value.metric, entry.value.value);
      }
    }
    assert parts[..|parts|] == parts;
  }

  // ---------------------------------------------------------------------------
  // Printing
  // ---------------------------------------------------------------------------

  function Segment(m: Metric, x: string): string {
    "/" + (Name(m) + ":" + x)
  }

  function Print(v: Vals): string {
    "CVSS:4.0" + Segment(AV, v.av) + Segment(AC, v.ac) + Segment(AT, v.at) + Segment(PR, v.pr) + Segment(UI, v.ui)
    + Segment(VC, v.vc) + Segment(VI, v.vi) + Segment(VA, v.va)
    + Segment(SC, v.sc) + Segment(SI, v.si) + Segment(SA, v.sa)
  }

  /** A value that the printed form can hold: not empty, and free of both separators. */
  predicate Clean(x: string) {
    x != "" && '/' !in x && ':' !in x
  }

  lemma PartReads(m: Metric, x: string)
    requires Clean(x)
    ensures ReadPart(Name(m) + ":" + x) == Some(Entry(m, x))
    ensures '/' !in Name(m) + ":" + x
  {
    hide SplitOn, Lower, MetricCalled, Name;
    NameReads(m);
    SplitAppend(Name(m), x, ':');
    SplitFree(Name(m), ':');
    SplitFree(x, ':');
  }

  /** One more segment sets its metric and leaves the others. */
  lemma SegmentSets(prefix: string, m: Metric, x: string)
    requires Clean(x)
    ensures forall n: Metric ::
              ValueIn(prefix + Segment(m, x), n) == if n == m then x else ValueIn(prefix, n)
  {
    hide SplitOn, Name, LastValue, Clean;
    var part := Name(m) + ":" + x;
    assert prefix + Segment(m, x) == prefix + ['/'] + part;
    PartReads(m, x);
    SplitAppend(prefix, part, '/');
    SplitFree(part, '/');
    forall n: Metric
      ensures ValueIn(prefix + Segment(m, x), n) == if n == m then x else ValueIn(prefix, n)
    {
      LastValueSnoc(SplitOn(prefix, '/'), part, n);
    }
  }

  ghost predicate AllClean(v: Vals) {
    forall m: Metric :: Clean(v.Get(m))
  }

  lemma PrintReads(v: Vals)
    requires AllClean(v)
    ensures Reads(Print(v), v)
  {
    hide Segment, ValueIn, Clean;
    assert Clean(v.Get(AV)) && Clean(v.Get(AC)) && Clean(v.Get(AT)) && Clean(v.Get(PR)) && Clean(v.Get(UI));
    assert Clean(v.Get(VC)) && Clean(v.Get(VI)) && Clean(v.Get(VA)) && Clean(v.Get(SC)) && Clean(v.Get(SI));
    assert Clean(v.Get(SA));
    var p0 := "CVSS:4.0";
    var p1 := p0 + Segment(AV, v.av);
    var p2 := p1 + Segment(AC, v.ac);
    var p3 := p2 + Segment(AT, v.at);
    var p4 := p3 + Segment(PR, v.pr);
    var p5 := p4 + Segment(UI, v.ui);
    var p6 := p5 + Segment(VC, v.vc);
    var p7 := p6 + Segment(VI, v.vi);
    var p8 := p7 + Segment(VA, v.va);
    var p9 := p8 + Segment(SC, v.sc);
    var p10 := p9 + Segment(SI, v.si);
    SegmentSets(p0, AV, v.av);
    SegmentSets(p1, AC, v.ac);
    SegmentSets(p2, AT, v.at);
    SegmentSets(p3, PR, v.pr);
    SegmentSets(p4, UI, v.ui);
    SegmentSets(p5, VC, v.vc);
    SegmentSets(p6, VI, v.vi);
    SegmentSets(p7, VA, v.va);
    SegmentSets(p8, SC, v.sc);
    SegmentSets(p9, SI, v.si);
    SegmentSets(p10, SA, v.sa);
  }

  lemma {:induction false} SplitSub(s: string, c: char, i: nat, x: char)
    requires i < |SplitOn(s, c)| && x in SplitOn(s, c)[i]
    ensures x in s
  {
    if s != "" {
      var rest := SplitOn(s[1..], c);
      if s[0] == c {
        assert i > 0 ==> SplitOn(s, c)[i] == rest[i - 1];
        if i > 0 { SplitSub(s[1..], c, i - 1, x); }
      } else if i > 0 || x != s[0] {
        assert i > 0 ==> SplitOn(s, c)[i] == rest[i];
        SplitSub(s[1..], c, i, x);
      }
    }
  }

  /** Whatever the vector, the value read is one that can be printed. */
  lemma ValueClean(vector: string, m: Metric)
    ensures Clean(ValueIn(vector, m))
  {
    hide SplitOn, Lower, MetricCalled, LastValue;
    var parts := SplitOn(vector, '/');
    LastValueMeaning(parts, m);
    if LastValue(parts, m).Some? {
      var i :| 0 <= i < |parts| && Gives(parts[i], m) && ReadPart(parts[i]).value.value == LastValue(parts, m).value;
      var part := parts[i];
      SplitParts(vector, '/');
      SplitParts(part, ':');
      var x := SplitOn(part, ':')[1];
      if '/' in x {
        SplitSub(part, ':', 1, '/');
      }
    }
  }

  /** Printing and reading back gives the same values exactly when each is non-empty and free of `/` and `:`. */
  lemma RoundTrip(v: Vals)
    ensures Reads(Print(v), v) <==> AllClean(v)
  {
    hide Print, ValueIn, Clean;
    if AllClean(v) {
      PrintReads(v);
    }
    if Reads(Print(v), v) {
      forall m: Metric
        ensures Clean(v.Get(m))
      {
        ValueClean(Print(v), m);
      }
    }
  }

  /** What was read from any vector survives printing and reading. */
  lemma ReadIsStable(vector: string, v: Vals)
    requires Reads(vector, v)
    ensures Reads(Print(v), v)
  {
    hide Print, ValueIn, Clean;
    forall m: Metric
      ensures Clean(v.Get(m))
    {
      ValueClean(vector, m);
    }
    PrintReads(v);
  }

  const DEFAULT_VECTOR :=
    "CVSS:4.0" + "/AV:N" + "/AC:L" + "/AT:N" + "/PR:N" + "/UI:N" + "/VC:H" + "/VI:H" + "/VA:H" + "/SC:N" + "/SI:N" + "/SA:N"

  lemma DefaultSegments()
    ensures Segment(AV, "N") == "/AV:N" && Segment(AC, "L") == "/AC:L" && Segment(AT, "N") == "/AT:N"
    ensures Segment(PR, "N") == "/PR:N" && Segment(UI, "N") == "/UI:N"
    ensures Segment(VC, "H") == "/VC:H" && Segment(VI, "H") == "/VI:H" && Segment(VA, "H") == "/VA:H"
    ensures Segment(SC, "N") == "/SC:N" && Segment(SI, "N") == "/SI:N" && Segment(SA, "N") == "/SA:N"
  {
  }

  /** The vector used for a finding without one is the printed form of the defaults. */
  lemma DefaultVector()
    ensures Print(DEFAULTS) == DEFAULT_VECTOR && Reads(DEFAULT_VECTOR, DEFAULTS) && Reads("", DEFAULTS)
  {
    hide ValueIn, Segment;
    DefaultSegments();
    assert AllClean(DEFAULTS);
    PrintReads(DEFAULTS);
    EmptyReads();
  }

  lemma EmptyReads()
    ensures Reads("", DEFAULTS)
  {
  }

  /** Choosing `x` for one metric writes a vector that gives `x` for it and the old values for the other ten. */
  method UpdateCvss(vector: string, m: Metric, x: string) returns (r: string)
    ensures forall v: Vals | Reads(vector, v) :: r == Print(v.Set(m, x))
    ensures Clean(x) <==> forall n: Metric :: ValueIn(r, n) == if n == m then x else ValueIn(vector, n)
  {
    hide ValueIn, Clean, Print, Reads;
    var v := ParseCvss4Vector(if vector == "" then DEFAULT_VECTOR else vector);
    r := Print(v.Set(m, x));
    DefaultVector();
    if vector == "" {
      ReadsUnique(DEFAULT_VECTOR, v, DEFAULTS);
    }
    forall w: Vals | Reads(vector, w)
      ensures w == v
    {
      ReadsUnique(vector, v, w);
    }
    UpdateReads(vector, v, m, x);
  }

  lemma UpdateReads(vector: string, v: Vals, m: Metric, x: string)
    requires Reads(vector, v)
    ensures Clean(x) <==> forall n: Metric :: ValueIn(Print(v.Set(m, x)), n) == if n == m then x else ValueIn(vector, n)
  {
    hide ValueIn, Clean, Print;
    var w := v.Set(m, x);
    RoundTrip(w);
    forall n: Metric
      ensures n != m ==> Clean(w.Get(n))
    {
      ValueClean(vector, n);
    }
    assert Clean(x) <==> AllClean(w);
  }
}

/** Product lines (pkg/ai/family.go): a raw model id is read into a shape and a version vector, and the newest id of
    a line is picked. */
module ProductLine {
  import opened Generations
  import opened Text
  import opened Wrappers

  // ---- the segment grammar ----

  predicate IsLetter(c: char) { 'a' <= c <= 'z' || 'A' <= c <= 'Z' }

  /** Digits separated by single dots, none leading or trailing. */
  predicate IsDottedDigits(s: string) {
    && s != "" && s[0] != '.' && s[|s| - 1] != '.'
    && (forall i | 0 <= i < |s| - 1 :: !(s[i] == '.' && s[i + 1] == '.'))
    && (forall i | 0 <= i < |s| :: s[i] == '.' || IsDigit(s[i]))
  }

  datatype Segment = Plain(text: string) | Versioned(prefix: string, ver: string)

  function Classify(seg: string): Segment {
    if IsDottedDigits(seg) then Versioned("", seg)
    else if |seg| > 1 && IsLetter(seg[0]) && IsDottedDigits(seg[1..]) then Versioned(seg[..1], seg[1..])
    else Plain(seg)
  }

  /** A date or a build stamp rather than a version number. */
  predicate LooksLikeStamp(part: string) {
    |part| >= 4 || (|part| > 1 && part[0] == '0')
  }

  predicate IsNumber(part: string) {
    part != "" && AllDigits(part)
  }

  predicate AllNumbers(parts: seq<string>) {
    forall k | 0 <= k < |parts| :: IsNumber(parts[k])
  }

  /** A leading digit, with the dot after it if there is one, does not matter to the rest. */
  lemma DottedDrop(s: string, n: nat)
    requires 1 <= n <= 2 && n <= |s| && |s| > 1 && s[0] != '.' && (n == 2 <==> s[1] == '.')
    ensures IsDottedDigits(s) ==> IsDigit(s[0]) && IsDottedDigits(s[n..])
    ensures IsDigit(s[0]) && IsDottedDigits(s[n..]) ==> IsDottedDigits(s)
  {
    var t := s[n..];
    if IsDottedDigits(s) {
      assert IsDigit(s[0]);
      if n == 2 {
        assert |s| > 2 && !(s[1] == '.' && s[2] == '.');
      }
      assert t[0] == s[n] && t[|t| - 1] == s[|s| - 1];
      assert forall i | 0 <= i < |t| :: t[i] == s[i + n];
    }
    if IsDigit(s[0]) && IsDottedDigits(t) {
      assert s[|s| - 1] == t[|t| - 1] && s[n] == t[0];
      assert forall i | n <= i < |s| :: s[i] == t[i - n];
    }
  }

  lemma NumbersPrepend(part: string, tail: seq<string>)
    ensures AllNumbers([part] + tail) <==> IsNumber(part) && AllNumbers(tail)
  {
    var parts := [part] + tail;
    if AllNumbers(parts) {
      assert parts[0] == part;
      forall k | 0 <= k < |tail| ensures IsNumber(tail[k]) {
        assert parts[k + 1] == tail[k];
      }
    }
  }

  lemma DottedAtDot(s: string)
    requires |s| > 1 && s[0] != '.' && s[1] == '.'
    ensures AllNumbers(Split(s, {'.'})) <==> IsDigit(s[0]) && AllNumbers(Split(s[2..], {'.'}))
  {
    assert s == s[..1] + ['.'] + s[2..];
    SplitConcat(s[..1], '.', s[2..], {'.'});
    SplitPiece(s[..1], {'.'});
    NumbersPrepend(s[..1], Split(s[2..], {'.'}));
    assert s[..1][0] == s[0];
  }

  lemma DigitPrepend(c: char, part: string)
    requires part != ""
    ensures IsNumber([c] + part) <==> IsDigit(c) && IsNumber(part)
  {
    var longer := [c] + part;
    if IsNumber(longer) {
      assert longer[0] == c;
      forall k | 0 <= k < |part| ensures IsDigit(part[k]) {
        assert longer[k + 1] == part[k];
      }
    }
  }

  lemma DottedAtDigit(s: string)
    requires |s| > 1 && s[0] != '.' && s[1] != '.'
    ensures AllNumbers(Split(s, {'.'})) <==> IsDigit(s[0]) && AllNumbers(Split(s[1..], {'.'}))
  {
    var tail := Split(s[1..], {'.'});
    assert Split(s, {'.'}) == [[s[0]] + tail[0]] + tail[1..] && tail[0] != "";
    NumbersPrepend([s[0]] + tail[0], tail[1..]);
    NumbersPrepend(tail[0], tail[1..]);
    assert [tail[0]] + tail[1..] == tail;
    DigitPrepend(s[0], tail[0]);
  }

  /** The test means what it is for: it holds exactly of dot-joined non-empty digit groups. */
  lemma {:induction false} DottedDigitsMeaning(s: string)
    ensures IsDottedDigits(s) <==> AllNumbers(Split(s, {'.'}))
    decreases |s|
  {
    if s == "" || s[0] == '.' {
      assert Split(s, {'.'})[0] == "" && !IsNumber("");
    } else if |s| == 1 {
      SplitPiece(s, {'.'});
      assert IsNumber(s) <==> IsDigit(s[0]);
    } else if s[1] == '.' {
      DottedDigitsMeaning(s[2..]);
      DottedDrop(s, 2);
      DottedAtDot(s);
    } else {
      DottedDigitsMeaning(s[1..]);
      DottedDrop(s, 1);
      DottedAtDigit(s);
    }
  }

  /** A segment carries a version if it is one, or one behind a single ASCII letter. */
  lemma SegmentExactly(seg: string)
    ensures Classify(seg) ==
            if AllNumbers(Split(seg, {'.'})) then Versioned("", seg)
            else if |seg| > 1 && ('a' <= seg[0] <= 'z' || 'A' <= seg[0] <= 'Z') && AllNumbers(Split(seg[1..], {'.'}))
            then Versioned(seg[..1], seg[1..])
            else Plain(seg)
  {
    DottedDigitsMeaning(seg);
    if |seg| > 1 {
      DottedDigitsMeaning(seg[1..]);
    }
  }

  lemma {:induction false} ShortDecimal(n: nat)
    ensures |Decimal(n)| <= 3 <==> n < 1000
    ensures |Decimal(n)| <= 2 <==> n < 100
    ensures |Decimal(n)| == 1 <==> n < 10
    ensures |Decimal(n)| > 1 ==> Decimal(n)[0] != '0'
  {
    if n >= 10 {
      ShortDecimal(n / 10);
      LeadingDigit(n);
    }
  }

  lemma {:induction false} LeadingDigit(n: nat)
    requires n > 0
    ensures Decimal(n)[0] != '0'
  {
    if n >= 10 {
      LeadingDigit(n / 10);
    } else {
      assert '0' + n as char != '0';
    }
  }

  /** A digit group is taken for a version number exactly when it is a number below 1000 as it is printed. */
  lemma StampExactly(part: string)
    requires IsNumber(part)
    ensures !LooksLikeStamp(part) <==> exists n: nat :: n < 1000 && part == Decimal(n)
  {
    if !LooksLikeStamp(part) {
      DecimalOfValue(part);
      ShortDecimal(Value(part));
      assert part == Decimal(Value(part));
    }
    if n: nat :| n < 1000 && part == Decimal(n) {
      ShortDecimal(n);
    }
  }

  // ---- reading an id ----

  /** The numbers of one version segment, or None when one of them looks like a stamp. */
  function Numbers(parts: seq<string>): Option<seq<nat>>
    requires AllNumbers(parts)
  {
    if |parts| == 0 then Some([])
    else
      var last := parts[|parts| - 1];
      match Numbers(parts[..|parts| - 1])
      case None => None
      case Some(ns) => if LooksLikeStamp(last) then None else Some(ns + [Value(last)])
  }

  function VersionNumbers(ver: string): Option<seq<nat>>
    requires IsDottedDigits(ver)
  {
    DottedDigitsMeaning(ver);
    Numbers(Split(ver, {'.'}))
  }

  datatype Scan = Scan(out: seq<string>, vec: seq<nat>, inRun: bool)

  function Advance(scan: Scan, seg: string): Option<Scan> {
    match Classify(seg)
    case Plain(text) => Some(Scan(scan.out + [text], scan.vec, false))
    case Versioned(prefix, ver) =>
      match VersionNumbers(ver)
      case None => None
      case Some(ns) =>
        if prefix == "" && scan.inRun then Some(scan.(vec := scan.vec + ns))
        else Some(Scan(scan.out + [prefix + "#"], scan.vec + ns, prefix == ""))
  }

  function ScanSegments(segs: seq<string>): Option<Scan> {
    if |segs| == 0 then Some(Scan([], [], false))
    else
      match ScanSegments(segs[..|segs| - 1])
      case None => None
      case Some(scan) => Advance(scan, segs[|segs| - 1])
  }

  function LineOf(modelID: string): Option<Line> {
    match ScanSegments(Split(modelID, {'-'}))
    case None => None
    case Some(scan) => if |scan.vec| == 0 then None else Some(Line(Join(scan.out, '-'), scan.vec))
  }

  lemma {:induction false} ScanFailureStays(segs: seq<string>, n: nat)
    requires n <= |segs| && ScanSegments(segs[..n]).None?
    ensures ScanSegments(segs).None?
    decreases |segs| - n
  {
    if n == |segs| {
      assert segs[..n] == segs;
    } else {
      assert segs[..n + 1][..n] == segs[..n];
      ScanFailureStays(segs, n + 1);
    }
  }

  lemma {:induction false} StampFails(parts: seq<string>, k: nat)
    requires AllNumbers(parts) && k < |parts| && LooksLikeStamp(parts[k])
    ensures Numbers(parts).None?
  {
    if k < |parts| - 1 {
      StampFails(parts[..|parts| - 1], k);
    }
  }

  /** The two inner loops of ProductLine: the groups of a version segment and their digits. */
  method ReadVersion(ver: string) returns (ns: seq<nat>, ok: bool)
    requires IsDottedDigits(ver)
    ensures ok <==> VersionNumbers(ver).Some?
    ensures ok ==> VersionNumbers(ver) == Some(ns)
  {
    DottedDigitsMeaning(ver);
    var parts := Split(ver, {'.'});
    ns := [];
    for p := 0 to |parts|
      invariant Numbers(parts[..p]) == Some(ns)
    {
      assert parts[..p + 1][..p] == parts[..p];
      var part := parts[p];
      assert IsNumber(part);
      if LooksLikeStamp(part) {
        StampFails(parts, p);
        return [], false;
      }
      var n := 0;
      for i := 0 to |part|
        invariant n == Value(part[..i])
      {
        assert part[..i + 1][..i] == part[..i];
        n := n * 10 + (part[i] - '0') as nat;
      }
      assert part[..|part|] == part;
      ns := ns + [n];
    }
    assert parts[..|parts|] == parts;
    ok := true;
  }

  /** What one segment does to the scan, in the steps of the loop. */
  lemma AdvanceSteps(scan: Scan, seg: string)
    ensures Classify(seg).Plain? ==> Advance(scan, seg) == Some(Scan(scan.out + [seg], scan.vec, false))
    ensures Classify(seg).Versioned? && VersionNumbers(Classify(seg).ver).None? ==> Advance(scan, seg) == None
    ensures Classify(seg).Versioned? && VersionNumbers(Classify(seg).ver).Some? ==>
              var prefix, vec := Classify(seg).prefix, scan.vec + VersionNumbers(Classify(seg).ver).value;
              Advance(scan, seg) ==
              Some(if prefix == "" && scan.inRun then Scan(scan.out, vec, true)
                   else Scan(scan.out + [prefix + "#"], vec, prefix == ""))
  {
  }

  lemma ScanSnoc(segs: seq<string>, n: nat)
    requires n < |segs| && ScanSegments(segs[..n]).Some?
    ensures ScanSegments(segs[..n + 1]) == Advance(ScanSegments(segs[..n]).value, segs[n])
  {
    assert segs[..n + 1][..n] == segs[..n];
  }

  /** ProductLine itself: one pass over the segments, building the shape and the vector. */
  method ReadProductLine(modelID: string) returns (shape: string, vec: seq<nat>, ok: bool)
    ensures ok <==> LineOf(modelID).Some?
    ensures ok ==> LineOf(modelID) == Some(Line(shape, vec))
    ensures !ok ==> shape == "" && vec == []
  {
    var segs := Split(modelID, {'-'});
    var out: seq<string> := [];
    vec := [];
    var inRun := false;
    for s := 0 to |segs|
      invariant ScanSegments(segs[..s]) == Some(Scan(out, vec, inRun))
    {
      ScanSnoc(segs, s);
      AdvanceSteps(Scan(out, vec, inRun), segs[s]);
      var seg := segs[s];
      var prefix, ver := seg, "";
      if IsDottedDigits(seg) {
        prefix, ver := "", seg;
      } else if |seg| > 1 && IsLetter(seg[0]) && IsDottedDigits(seg[1..]) {
        prefix, ver := seg[..1], seg[1..];
      }
      if ver == "" {
        out := out + [seg];
        inRun := false;
        continue;
      }
      var ns, readable := ReadVersion(ver);
      if !readable {
        ScanFailureStays(segs, s + 1);
        return "", [], false;
      }
      vec := vec + ns;
      if prefix == "" && inRun {
        continue;
      }
      out := out + [prefix + "#"];
      inRun := prefix == "";
    }
    assert segs[..|segs|] == segs;
    if |vec| == 0 {
      return "", [], false;
    }
    return Join(out, '-'), vec, true;
  }

  // ---- what the shape forgets is exactly the version text ----

  function Hashes(shape: string): nat {
    if shape == "" then 0 else (if shape[0] == '#' then 1 else 0) + Hashes(shape[1..])
  }

  /** `shape` with its successive `#` replaced by the given texts. */
  function Fill(shape: string, runs: seq<string>): string
    requires Hashes(shape) == |runs|
  {
    if shape == "" then ""
    else if shape[0] == '#' then runs[0] + Fill(shape[1..], runs[1..])
    else [shape[0]] + Fill(shape[1..], runs)
  }

  /** The digit groups of version texts: what lies between `-` and `.`. */
  function Groups(runs: seq<string>): seq<string> {
    if |runs| == 0 then [] else Groups(runs[..|runs| - 1]) + Split(runs[|runs| - 1], {'-', '.'})
  }

  function Printed(vec: seq<nat>): seq<string> {
    seq(|vec|, i requires 0 <= i < |vec| => Decimal(vec[i]))
  }

  lemma {:induction false} HashesConcat(a: string, b: string)
    ensures Hashes(a + b) == Hashes(a) + Hashes(b)
  {
    if a == "" {
      assert a + b == b;
    } else {
      assert (a + b)[1..] == a[1..] + b;
      HashesConcat(a[1..], b);
    }
  }

  lemma {:induction false} FillConcat(a: string, b: string, ra: seq<string>, rb: seq<string>)
    requires Hashes(a) == |ra| && Hashes(b) == |rb|
    ensures Hashes(a + b) == |ra + rb| && Fill(a + b, ra + rb) == Fill(a, ra) + Fill(b, rb)
  {
    HashesConcat(a, b);
    if a == "" {
      assert a + b == b && ra + rb == rb;
    } else {
      assert (a + b)[1..] == a[1..] + b;
      if a[0] == '#' {
        assert (ra + rb)[1..] == ra[1..] + rb;
        FillConcat(a[1..], b, ra[1..], rb);
        var x, y, z := ra[0], Fill(a[1..], ra[1..]), Fill(b, rb);
        assert x + (y + z) == (x + y) + z;
      } else {
        FillConcat(a[1..], b, ra, rb);
        var x, y, z := [a[0]], Fill(a[1..], ra), Fill(b, rb);
        assert x + (y + z) == (x + y) + z;
      }
    }
  }

  lemma {:induction false} FillPlain(s: string)
    requires Free(s, {'#'})
    ensures Hashes(s) == 0 && Fill(s, []) == s
  {
    if s != "" {
      FillPlain(s[1..]);
      assert [s[0]] + s[1..] == s;
    }
  }

  lemma FillVersioned(prefix: string, ver: string)
    requires Free(prefix, {'#'})
    ensures Hashes(prefix + "#") == 1 && Fill(prefix + "#", [ver]) == prefix + ver
  {
    FillPlain(prefix);
    assert "#"[1..] == "" && [ver][1..] == [];
    assert Hashes("") == 0;
    assert Hashes("#") == 1;
    assert Fill("#", [ver]) == ver;
    FillConcat(prefix, "#", [], [ver]);
    assert [] + [ver] == [ver];
  }

  predicate EndsInRun(segs: seq<string>) {
    |segs| > 0 && Classify(segs[|segs| - 1]).Versioned? && Classify(segs[|segs| - 1]).prefix == ""
  }

  /** The version texts the segments contribute, one per `#`; adjacent pure versions are one text. */
  function Runs(segs: seq<string>): (runs: seq<string>)
    ensures EndsInRun(segs) ==> |runs| > 0
  {
    if |segs| == 0 then []
    else
      var rest := segs[..|segs| - 1];
      match Classify(segs[|segs| - 1])
      case Plain(_) => Runs(rest)
      case Versioned(prefix, ver) =>
        if prefix == "" && EndsInRun(rest) then
          Runs(rest)[..|Runs(rest)| - 1] + [Runs(rest)[|Runs(rest)| - 1] + "-" + ver]
        else Runs(rest) + [ver]
  }

  lemma ClassifyText(seg: string)
    requires Classify(seg).Versioned?
    ensures var v := Classify(seg); seg == v.prefix + v.ver && IsDottedDigits(v.ver)
                                    && |v.prefix| <= 1 && Free(v.prefix, {'#'})
  {
  }

  lemma ScanPrefix(segs: seq<string>)
    requires |segs| >= 1 && ScanSegments(segs).Some?
    ensures ScanSegments(segs[..|segs| - 1]).Some?
    ensures ScanSegments(segs) == Advance(ScanSegments(segs[..|segs| - 1]).value, segs[|segs| - 1])
  {
  }

  lemma {:induction false} InRunMeaning(segs: seq<string>)
    requires ScanSegments(segs).Some?
    ensures ScanSegments(segs).value.inRun == EndsInRun(segs)
    ensures |segs| > 0 ==> |ScanSegments(segs).value.out| > 0
  {
    if |segs| > 0 {
      ScanPrefix(segs);
      InRunMeaning(segs[..|segs| - 1]);
    }
  }

  /** Appending a segment's own shape and text keeps shape and runs in step with the id. */
  lemma FillSegment(out: seq<string>, runs: seq<string>, piece: string, texts: seq<string>, id: string, seg: string)
    requires Hashes(Join(out, '-')) == |runs| && Fill(Join(out, '-'), runs) == id
    requires Hashes(piece) == |texts| && Fill(piece, texts) == seg
    requires |out| > 0
    ensures Hashes(Join(out + [piece], '-')) == |runs + texts|
    ensures Fill(Join(out + [piece], '-'), runs + texts) == id + "-" + seg
  {
    var shape := Join(out, '-');
    JoinSnoc(out, piece, '-');
    FillPlain("-");
    FillConcat(shape, "-", runs, []);
    assert runs + [] == runs;
    FillConcat(shape + "-", piece, runs, texts);
  }

  lemma FillLast(front: string, init: seq<string>, last: string)
    requires Hashes(front) == |init|
    ensures Hashes(front + "#") == |init + [last]| && Fill(front + "#", init + [last]) == Fill(front, init) + last
  {
    FillVersioned("", last);
    assert "" + "#" == "#";
    FillConcat(front, "#", init, [last]);
  }

  /** Lengthening the last run lengthens the id at its end. */
  lemma FillLonger(shape: string, runs: seq<string>, more: string)
    requires shape != "" && shape[|shape| - 1] == '#' && Hashes(shape) == |runs|
    ensures |runs| > 0
    ensures Fill(shape, runs[..|runs| - 1] + [runs[|runs| - 1] + more]) == Fill(shape, runs) + more
  {
    var front := shape[..|shape| - 1];
    assert shape == front + "#";
    HashesConcat(front, "#");
    FillVersioned("", "");
    assert "" + "#" == "#";
    var init, last := runs[..|runs| - 1], runs[|runs| - 1];
    assert runs == init + [last];
    FillLast(front, init, last);
    FillLast(front, init, last + more);
    Associates(Fill(front, init), last, more);
  }

  lemma Associates(a: string, b: string, c: string)
    ensures a + (b + c) == a + b + c
  {
  }

  lemma JoinEndsWithLast(parts: seq<string>, sep: char)
    requires |parts| > 0 && parts[|parts| - 1] != ""
    ensures Join(parts, sep) != ""
    ensures Join(parts, sep)[|Join(parts, sep)| - 1] == parts[|parts| - 1][|parts[|parts| - 1]| - 1]
  {
    if |parts| > 1 {
      assert parts == parts[..|parts| - 1] + [parts[|parts| - 1]];
      JoinSnoc(parts[..|parts| - 1], parts[|parts| - 1], sep);
    }
  }

  lemma {:induction false} RunShapeEndsInHash(segs: seq<string>)
    requires ScanSegments(segs).Some? && EndsInRun(segs)
    ensures var out := ScanSegments(segs).value.out; |out| > 0 && out[|out| - 1] == "#"
  {
    var rest := segs[..|segs| - 1];
    ScanPrefix(segs);
    InRunMeaning(rest);
    if EndsInRun(rest) {
      RunShapeEndsInHash(rest);
    }
  }

  /** What one segment adds to the shape, and the version texts it adds to the runs. */
  function Piece(seg: string): string {
    match Classify(seg)
    case Plain(text) => text
    case Versioned(prefix, _) => prefix + "#"
  }

  function Texts(seg: string): seq<string> {
    match Classify(seg)
    case Plain(_) => []
    case Versioned(_, ver) => [ver]
  }

  lemma FillPiece(seg: string)
    requires Free(seg, {'#'})
    ensures Hashes(Piece(seg)) == |Texts(seg)| && Fill(Piece(seg), Texts(seg)) == seg
  {
    match Classify(seg) {
      case Plain(_) => FillPlain(seg);
      case Versioned(prefix, ver) =>
        ClassifyText(seg);
        FillVersioned(prefix, ver);
    }
  }

  ghost predicate ReadsBack(segs: seq<string>) {
    ScanSegments(segs).Some? &&
    var shape := Join(ScanSegments(segs).value.out, '-');
    Hashes(shape) == |Runs(segs)| && Fill(shape, Runs(segs)) == Join(segs, '-')
  }

  lemma ScanExtend(rest: seq<string>, seg: string)
    requires |rest| > 0 && ScanSegments(rest).Some? && EndsInRun(rest)
    requires Classify(seg).Versioned? && Classify(seg).prefix == "" && ScanSegments(rest + [seg]).Some?
    ensures ScanSegments(rest + [seg]).value.out == ScanSegments(rest).value.out
    ensures var runs := Runs(rest);
            Runs(rest + [seg]) == runs[..|runs| - 1] + [runs[|runs| - 1] + "-" + seg]
  {
    assert (rest + [seg])[..|rest|] == rest;
    InRunMeaning(rest);
  }

  lemma ReadBackExtend(rest: seq<string>, seg: string)
    requires |rest| > 0 && ReadsBack(rest) && EndsInRun(rest)
    requires Classify(seg).Versioned? && Classify(seg).prefix == "" && ScanSegments(rest + [seg]).Some?
    ensures ReadsBack(rest + [seg])
  {
    var out, runs := ScanSegments(rest).value.out, Runs(rest);
    var shape := Join(out, '-');
    ScanExtend(rest, seg);
    assert shape != "" && shape[|shape| - 1] == '#' by {
      RunShapeEndsInHash(rest);
      JoinEndsWithLast(out, '-');
    }
    assert Join(rest + [seg], '-') == Fill(shape, runs) + ("-" + seg) by {
      JoinSnoc(rest, seg, '-');
      Associates(Join(rest, '-'), "-", seg);
    }
    FillLonger(shape, runs, "-" + seg);
    Associates(runs[|runs| - 1], "-", seg);
  }

  lemma ReadBackAppend(rest: seq<string>, seg: string)
    requires |rest| > 0 && ReadsBack(rest) && Free(seg, {'#'})
    requires ScanSegments(rest + [seg]).Some?
    requires !(EndsInRun(rest) && Classify(seg).Versioned? && Classify(seg).prefix == "")
    ensures ReadsBack(rest + [seg])
  {
    var scan, segs := ScanSegments(rest).value, rest + [seg];
    assert segs[..|rest|] == rest;
    InRunMeaning(rest);
    FillPiece(seg);
    FillSegment(scan.out, Runs(rest), Piece(seg), Texts(seg), Join(rest, '-'), seg);
    JoinSnoc(rest, seg, '-');
    assert Runs(rest) + [] == Runs(rest);
    assert ScanSegments(segs) == Advance(scan, seg);
    assert ScanSegments(segs).value.out == scan.out + [Piece(seg)];
    assert Runs(segs) == Runs(rest) + Texts(seg);
  }

  lemma ReadBackFirst(seg: string)
    requires Free(seg, {'#'}) && ScanSegments([seg]).Some?
    ensures ReadsBack([seg])
  {
    FillPiece(seg);
    assert [seg][..0] == [];
    assert [] + [Piece(seg)] == [Piece(seg)];
    assert [] + Texts(seg) == Texts(seg) && Runs([seg]) == Texts(seg);
    assert ScanSegments([seg]).value.out == [Piece(seg)];
  }

  lemma {:induction false} TextReadBack(segs: seq<string>)
    requires |segs| > 0 && ScanSegments(segs).Some?
    requires forall i | 0 <= i < |segs| :: Free(segs[i], {'#'})
    ensures ReadsBack(segs)
  {
    var rest, seg := segs[..|segs| - 1], segs[|segs| - 1];
    assert segs == rest + [seg];
    if |rest| == 0 {
      assert segs == [seg];
      ReadBackFirst(seg);
    } else {
      TextReadBack(rest);
      if EndsInRun(rest) && EndsInRun(segs) {
        ReadBackExtend(rest, seg);
      } else {
        ReadBackAppend(rest, seg);
      }
    }
  }

  // ---- the vector is exactly the digits of those texts ----

  lemma {:induction false} ThreeDigits(s: string)
    requires AllDigits(s) && |s| <= 3
    ensures Value(s) < if |s| == 3 then 1000 else if |s| == 2 then 100 else if |s| == 1 then 10 else 1
  {
    if s != "" {
      ThreeDigits(s[..|s| - 1]);
    }
  }

  lemma {:induction false} NumbersPrint(parts: seq<string>)
    requires AllNumbers(parts) && Numbers(parts).Some?
    ensures Printed(Numbers(parts).value) == parts
    ensures forall i | 0 <= i < |Numbers(parts).value| :: Numbers(parts).value[i] < 1000
  {
    if |parts| > 0 {
      var front, last := parts[..|parts| - 1], parts[|parts| - 1];
      assert AllNumbers(front);
      NumbersPrint(front);
      assert IsNumber(last);
      ThreeDigits(last);
      DecimalOfValue(last);
      assert parts == front + [last];
    }
  }

  lemma {:induction false} SplitWithoutDash(s: string)
    requires Free(s, {'-'})
    ensures Split(s, {'-', '.'}) == Split(s, {'.'})
  {
    if s != "" {
      SplitWithoutDash(s[1..]);
    }
  }

  lemma VersionPrint(ver: string)
    requires IsDottedDigits(ver) && VersionNumbers(ver).Some?
    ensures Printed(VersionNumbers(ver).value) == Split(ver, {'-', '.'})
    ensures forall i | 0 <= i < |VersionNumbers(ver).value| :: VersionNumbers(ver).value[i] < 1000
    ensures |VersionNumbers(ver).value| > 0
  {
    DottedDigitsMeaning(ver);
    NumbersPrint(Split(ver, {'.'}));
    SplitWithoutDash(ver);
    assert |Printed(VersionNumbers(ver).value)| > 0;
  }

  lemma GroupsSnoc(runs: seq<string>, ver: string)
    ensures Groups(runs + [ver]) == Groups(runs) + Split(ver, {'-', '.'})
  {
    assert (runs + [ver])[..|runs|] == runs;
  }

  lemma GroupsLonger(runs: seq<string>, ver: string)
    requires |runs| > 0
    ensures Groups(runs[..|runs| - 1] + [runs[|runs| - 1] + "-" + ver]) == Groups(runs) + Split(ver, {'-', '.'})
  {
    var init, last := runs[..|runs| - 1], runs[|runs| - 1];
    GroupsSnoc(init, last + "-" + ver);
    SplitConcat(last, '-', ver, {'-', '.'});
    assert Split(last + "-" + ver, {'-', '.'}) == Split(last, {'-', '.'}) + Split(ver, {'-', '.'});
  }

  lemma PrintedConcat(a: seq<nat>, b: seq<nat>)
    ensures Printed(a + b) == Printed(a) + Printed(b)
  {
  }

  /** `vec` is what the runs print, element by element. */
  ghost predicate Digits(runs: seq<string>, vec: seq<nat>) {
    Groups(runs) == Printed(vec) && forall i | 0 <= i < |vec| :: vec[i] < 1000
  }

  lemma DigitsStep(runs: seq<string>, vec: seq<nat>, ver: string)
    requires Digits(runs, vec) && IsDottedDigits(ver) && VersionNumbers(ver).Some?
    ensures Digits(runs + [ver], vec + VersionNumbers(ver).value)
    ensures |runs| > 0 ==>
              Digits(runs[..|runs| - 1] + [runs[|runs| - 1] + "-" + ver], vec + VersionNumbers(ver).value)
  {
    VersionPrint(ver);
    PrintedConcat(vec, VersionNumbers(ver).value);
    GroupsSnoc(runs, ver);
    if |runs| > 0 {
      GroupsLonger(runs, ver);
    }
  }

  lemma RunsSnoc(rest: seq<string>, seg: string)
    ensures Classify(seg).Plain? ==> Runs(rest + [seg]) == Runs(rest)
    ensures Classify(seg).Versioned? && !(Classify(seg).prefix == "" && EndsInRun(rest)) ==>
              Runs(rest + [seg]) == Runs(rest) + [Classify(seg).ver]
    ensures Classify(seg).Versioned? && Classify(seg).prefix == "" && EndsInRun(rest) ==>
              Runs(rest + [seg]) ==
              Runs(rest)[..|Runs(rest)| - 1] + [Runs(rest)[|Runs(rest)| - 1] + "-" + Classify(seg).ver]
  {
    assert (rest + [seg])[..|rest|] == rest;
  }

  lemma AdvanceVec(scan: Scan, seg: string)
    requires Advance(scan, seg).Some?
    ensures Classify(seg).Plain? ==> Advance(scan, seg).value.vec == scan.vec
    ensures Classify(seg).Versioned? ==>
              && VersionNumbers(Classify(seg).ver).Some?
              && Advance(scan, seg).value.vec == scan.vec + VersionNumbers(Classify(seg).ver).value
  {
  }

  lemma {:induction false} DigitsReadBack(segs: seq<string>)
    requires ScanSegments(segs).Some?
    ensures Digits(Runs(segs), ScanSegments(segs).value.vec)
  {
    if |segs| > 0 {
      var rest, seg := segs[..|segs| - 1], segs[|segs| - 1];
      assert segs == rest + [seg];
      ScanPrefix(segs);
      DigitsReadBack(rest);
      AdvanceVec(ScanSegments(rest).value, seg);
      RunsSnoc(rest, seg);
      if Classify(seg).Versioned? {
        ClassifyText(seg);
        DigitsStep(Runs(rest), ScanSegments(rest).value.vec, Classify(seg).ver);
      }
    }
  }

  /** Reading loses only how the version numbers were separated. For an id without `#`, there are
      version texts, one per `#`, that put the id back together from its shape; their digit groups
      are the vector printed in decimal; and every element is at most 999. */
  lemma ReadBack(modelID: string)
    requires Free(modelID, {'#'}) && LineOf(modelID).Some?
    ensures var line, runs := LineOf(modelID).value, Runs(Split(modelID, {'-'}));
            && Hashes(line.shape) == |runs|
            && Fill(line.shape, runs) == modelID
            && Groups(runs) == Printed(line.vec)
            && forall i | 0 <= i < |line.vec| :: line.vec[i] < 1000
  {
    var segs := Split(modelID, {'-'});
    JoinSplit(modelID, '-');
    PiecesFree(modelID, '#', '-');
    TextReadBack(segs);
    DigitsReadBack(segs);
  }

  lemma {:induction false} PiecesFree(s: string, c: char, sep: char)
    requires Free(s, {c})
    ensures forall k | 0 <= k < |Split(s, {sep})| :: Free(Split(s, {sep})[k], {c})
  {
    if s != "" {
      assert Free(s[1..], {c});
      PiecesFree(s[1..], c, sep);
      var rest := Split(s[1..], {sep});
      assert s[0] != c;
      assert Free([s[0]] + rest[0], {c});
    }
  }

  /** Two orderable ids of one shape differ only inside their version texts. */
  lemma SameShapeSameText(a: string, b: string)
    requires Free(a, {'#'}) && Free(b, {'#'})
    requires LineOf(a).Some? && LineOf(b).Some? && LineOf(a).value.shape == LineOf(b).value.shape
    ensures var shape, ra, rb := LineOf(a).value.shape, Runs(Split(a, {'-'})), Runs(Split(b, {'-'}));
            && Hashes(shape) == |ra| == |rb|
            && a == Fill(shape, ra) && b == Fill(shape, rb)
            && Groups(ra) == Printed(LineOf(a).value.vec) && Groups(rb) == Printed(LineOf(b).value.vec)
  {
    ReadBack(a);
    ReadBack(b);
  }

  /** ... and if their vectors agree too, they differ only in how the numbers are separated. */
  lemma SameLineSameGroups(a: string, b: string)
    requires Free(a, {'#'}) && Free(b, {'#'})
    requires LineOf(a).Some? && LineOf(a) == LineOf(b)
    ensures Groups(Runs(Split(a, {'-'}))) == Groups(Runs(Split(b, {'-'})))
  {
    ReadBack(a);
    ReadBack(b);
  }

  // ---- runs collapse ----

  ghost predicate Collapsed(pieces: seq<string>) {
    forall i | 0 <= i < |pieces| - 1 :: !(pieces[i] == "#" && pieces[i + 1] == "#")
  }

  ghost predicate Tidy(scan: Scan) {
    && Collapsed(scan.out)
    && (|scan.out| > 0 ==> (scan.out[|scan.out| - 1] == "#" <==> scan.inRun))
    && (|scan.out| == 0 ==> !scan.inRun)
    && forall i | 0 <= i < |scan.out| :: Free(scan.out[i], {'-'})
  }

  lemma PieceTidy(seg: string)
    requires Free(seg, {'#', '-'})
    ensures Free(Piece(seg), {'-'})
    ensures Piece(seg) == "#" <==> Classify(seg).Versioned? && Classify(seg).prefix == ""
  {
    assert |seg| == 1 ==> seg[0] != '#';
    if Classify(seg).Versioned? && Classify(seg).prefix != "" {
      assert |Piece(seg)| == 2;
    }
  }

  lemma AdvanceOut(scan: Scan, seg: string)
    requires Advance(scan, seg).Some?
    ensures var next := Advance(scan, seg).value;
            var pure := Classify(seg).Versioned? && Classify(seg).prefix == "";
            next.inRun == pure && next.out == if pure && scan.inRun then scan.out else scan.out + [Piece(seg)]
  {
  }

  lemma TidySnoc(scan: Scan, piece: string, next: Scan)
    requires Tidy(scan) && Free(piece, {'-'}) && (piece == "#" <==> next.inRun)
    requires next.out == if next.inRun && scan.inRun then scan.out else scan.out + [piece]
    ensures Tidy(next)
  {
  }

  lemma AdvanceTidy(scan: Scan, seg: string)
    requires Tidy(scan) && Free(seg, {'#', '-'}) && Advance(scan, seg).Some?
    ensures Tidy(Advance(scan, seg).value)
  {
    AdvanceOut(scan, seg);
    PieceTidy(seg);
    TidySnoc(scan, Piece(seg), Advance(scan, seg).value);
  }

  lemma {:induction false} ScanTidy(segs: seq<string>)
    requires ScanSegments(segs).Some?
    requires forall i | 0 <= i < |segs| :: Free(segs[i], {'#', '-'})
    ensures Tidy(ScanSegments(segs).value)
  {
    if |segs| > 0 {
      ScanPrefix(segs);
      ScanTidy(segs[..|segs| - 1]);
      AdvanceTidy(ScanSegments(segs[..|segs| - 1]).value, segs[|segs| - 1]);
    }
  }

  /** A run of adjacent pure-version segments always shows as a single `#` piece of the shape. */
  lemma ShapeCollapses(modelID: string)
    requires Free(modelID, {'#'}) && LineOf(modelID).Some?
    ensures Collapsed(Split(LineOf(modelID).value.shape, {'-'}))
  {
    var segs := Split(modelID, {'-'});
    PiecesFree(modelID, '#', '-');
    SplitFree(modelID, {'-'});
    assert forall i | 0 <= i < |segs| :: Free(segs[i], {'#', '-'});
    ScanTidy(segs);
    InRunMeaning(segs);
    SplitJoin(ScanSegments(segs).value.out, '-');
  }

  // ---- which ids are orderable ----

  ghost predicate HasStamp(seg: string) {
    Classify(seg).Versioned? && exists k ::
      0 <= k < |Split(Classify(seg).ver, {'.'})| && LooksLikeStamp(Split(Classify(seg).ver, {'.'})[k])
  }

  ghost predicate AnyVersion(segs: seq<string>) {
    exists i :: 0 <= i < |segs| && Classify(segs[i]).Versioned?
  }

  ghost predicate AnyStamp(segs: seq<string>) {
    exists i :: 0 <= i < |segs| && HasStamp(segs[i])
  }

  lemma {:induction false} NumbersDefined(parts: seq<string>)
    requires AllNumbers(parts)
    ensures Numbers(parts).Some? <==> forall k | 0 <= k < |parts| :: !LooksLikeStamp(parts[k])
  {
    if |parts| > 0 {
      NumbersDefined(parts[..|parts| - 1]);
    }
  }

  lemma AdvanceDefined(scan: Scan, seg: string)
    ensures Advance(scan, seg).Some? <==> !HasStamp(seg)
    ensures Advance(scan, seg).Some? ==> (|Advance(scan, seg).value.vec| > |scan.vec| <==> Classify(seg).Versioned?)
  {
    if Classify(seg).Versioned? {
      var ver := Classify(seg).ver;
      DottedDigitsMeaning(ver);
      NumbersDefined(Split(ver, {'.'}));
      if VersionNumbers(ver).Some? {
        VersionPrint(ver);
      }
    }
  }

  lemma {:induction false} ScanDefined(segs: seq<string>)
    ensures ScanSegments(segs).Some? <==> !AnyStamp(segs)
    ensures ScanSegments(segs).Some? ==> (|ScanSegments(segs).value.vec| > 0 <==> AnyVersion(segs))
  {
    if |segs| > 0 {
      var rest, seg := segs[..|segs| - 1], segs[|segs| - 1];
      ScanDefined(rest);
      if ScanSegments(rest).Some? {
        AdvanceDefined(ScanSegments(rest).value, seg);
      }
    }
  }

  /** An id is orderable exactly when some segment carries a version and none carries a stamp. */
  lemma OrderableExactly(modelID: string)
    ensures LineOf(modelID).Some? <==> AnyVersion(Split(modelID, {'-'})) && !AnyStamp(Split(modelID, {'-'}))
  {
    ScanDefined(Split(modelID, {'-'}));
  }

  // ---- the newest of a line ----

  method NewestInProductLine(anchor: string, candidates: seq<string>) returns (bestID: string)
    ensures bestID == Newest(LineOf, anchor, candidates)
  {
    var shape, best, ok := ReadProductLine(anchor);
    if !ok {
      return anchor;
    }
    bestID := anchor;
    ghost var line := LineOf(anchor).value;
    for i := 0 to |candidates|
      invariant bestID == Best(LineOf, anchor, line, candidates[..i])
      invariant LineOf(bestID) == Some(Line(shape, best))
    {
      assert candidates[..i + 1][..i] == candidates[..i];
      var id := candidates[i];
      var s, v, readable := ReadProductLine(id);
      if !readable || s != shape {
        continue;
      }
      var c := CompareGenerations(v, best);
      if c > 0 || (c == 0 && bestID != anchor && Less(id, bestID)) {
        best, bestID := v, id;
      }
    }
    assert candidates[..|candidates|] == candidates;
  }

  // ---- the prefix-stripping loop of normaliseModelID ----

  predicate Strippable(id: string, i: nat) {
    i + 1 < |id| && id[i] == '.' && 'a' <= id[i + 1] <= 'z' && '-' in id[i + 1..]
  }

  /** A dot of a suffix is strippable there exactly when it is in the whole id. */
  lemma StrippableInSuffix(id: string, cut: nat, i: nat)
    requires cut <= |id|
    ensures Strippable(id[cut..], i) <==> Strippable(id, cut + i)
  {
    if cut + i < |id| {
      assert id[cut..][i + 1..] == id[cut + i + 1..];
    }
  }

  /** What stripping leaves: the text after the last dot that a hyphenated lower-case name follows, or the whole id
      when there is none. */
  ghost predicate Stripped(modelID: string, id: string) {
    || (id == modelID && forall i: nat :: !Strippable(modelID, i))
    || exists k: nat :: Strippable(modelID, k) && id == modelID[k + 1..] && forall i: nat | i > k :: !Strippable(modelID, i)
  }

  /** The scan restarts on every shortened id, and still ends. */
  method StripDottedPrefixes(modelID: string) returns (id: string)
    ensures Stripped(modelID, id)
  {
    id := modelID;
    ghost var cut: nat := 0;
    var i := 0;
    while i < |id|
      invariant 0 <= i <= |id| && cut <= |modelID| && id == modelID[cut..]
      invariant cut == 0 || Strippable(modelID, cut - 1)
      invariant forall j: nat | cut <= j < cut + i :: !Strippable(modelID, j)
      decreases |id|, |id| - i
    {
      StrippableInSuffix(modelID, cut, i);
      if id[i] == '.' && i + 1 < |id| && 'a' <= id[i + 1] <= 'z' && '-' in id[i + 1..] {
        cut := cut + i + 1;
        id := id[i + 1..];
        i := 0;
      } else {
        i := i + 1;
      }
    }
    if cut > 0 {
      assert Strippable(modelID, cut - 1) && id == modelID[cut - 1 + 1..];
    }
  }

  /** Prefixes of dotted providers go, however many; a dot before a digit stays. */
  lemma PrefixesAreStripped()
    ensures Stripped("us.ai.m-1", "m-1")
  {
    assert "us.ai.m-1"[6..] == "m-1";
    assert "us.ai.m-1"[6..][1] == '-';
    assert Strippable("us.ai.m-1", 5);
  }

  lemma VersionDotsStay()
    ensures Stripped("m-3.5", "m-3.5")
  {
  }
}

/**
 * The endpoint schema as AbstractFilter records it: `setClassInfo` and
 * `linkParameter` append one marker-delimited record per call to a string
 * buffer, `buildGen` splits the buffers back into (path, value) pairs, and
 * `buildGenKey` concatenates everything into the template-cache key.
 */
module Schema {
  import opened Wrappers
  import opened Strings

  /** SPECIAL_STR_A, which opens and closes each record. */
  const MarkA: string := "★☆"
  /** SPECIAL_STR_B, which separates a record's path from its value. */
  const MarkB: string := "☆★"

  /** One `setClassInfo(path, className)` or `linkParameter(path, parameterKey)` call. */
  datatype Binding = Binding(path: string, value: string)

  /** What one call appends to its buffer. */
  function Record(b: Binding): string {
    MarkA + b.path + MarkB + b.value + MarkA
  }

  /** A buffer after the given calls, in call order, starting from empty. */
  function Buffer(bs: seq<Binding>): string {
    if bs == [] then "" else Record(bs[0]) + Buffer(bs[1..])
  }

  /** A record opens and closes with MarkA, the path right after the first,
      the value right before the last. */
  lemma RecordLayout(b: Binding)
    ensures var r := Record(b);
      && |r| == |b.path| + |b.value| + 6
      && StartsWith(r, MarkA) && r[|r| - 2..] == MarkA
      && r[2..2 + |b.path|] == b.path && r[4 + |b.path|..|r| - 2] == b.value
  {
  }

  /** A buffer is empty exactly when nothing was recorded, and each record
      adds at least the three markers. */
  lemma {:induction false} BufferFacts(bs: seq<Binding>)
    ensures Buffer(bs) == "" <==> bs == []
    ensures |Buffer(bs)| >= 6 * |bs|
  {
    if bs != [] {
      BufferFacts(bs[1..]);
      RecordLayout(bs[0]);
    }
  }

  lemma {:induction false} BufferAppend(bs: seq<Binding>, b: Binding)
    ensures Buffer(bs + [b]) == Buffer(bs) + Record(b)
  {
    if bs == [] {
      assert [b][1..] == [];
    } else {
      assert (bs + [b])[1..] == bs[1..] + [b];
      BufferAppend(bs[1..], b);
    }
  }

  predicate MarkerFree(s: string) {
    forall i :: 0 <= i < |s| ==> s[i] != '★' && s[i] != '☆'
  }

  /** A record that parses back: no marker character in either part and a
      non-empty value (`split` drops a trailing empty piece). */
  predicate WellFormed(b: Binding) {
    MarkerFree(b.path) && MarkerFree(b.value) && b.value != ""
  }

  /** The bindings read before the first malformed fragment, and whether
      every fragment was read (false: `classInfo[1]` would be out of bounds). */
  datatype Parsed = Parsed(bindings: seq<Binding>, complete: bool)

  /** One non-blank fragment split on MarkB; None when it has fewer than two pieces. */
  function ParseFragment(fragment: string): Option<Binding> {
    var parts := Split(fragment, MarkB);
    if |parts| < 2 then None else Some(Binding(parts[0], parts[1]))
  }

  function ParseFragments(fragments: seq<string>): Parsed {
    if fragments == [] then Parsed([], true)
    else if IsBlank(fragments[0]) then ParseFragments(fragments[1..])
    else match ParseFragment(fragments[0])
      case None => Parsed([], false)
      case Some(b) =>
        var rest := ParseFragments(fragments[1..]);
        Parsed([b] + rest.bindings, rest.complete)
  }

  /** At most one binding per fragment; complete exactly when every non-blank
      fragment has a second piece; nothing read from blank fragments alone. */
  lemma {:induction false} ParseFragmentsFacts(fragments: seq<string>)
    ensures var r := ParseFragments(fragments);
      && |r.bindings| <= |fragments|
      && (r.complete <==>
           forall i :: 0 <= i < |fragments| && !IsBlank(fragments[i]) ==> ParseFragment(fragments[i]).Some?)
      && ((forall i :: 0 <= i < |fragments| ==> IsBlank(fragments[i])) ==> r == Parsed([], true))
  {
    if fragments != [] {
      ParseFragmentsFacts(fragments[1..]);
      assert forall i :: 1 <= i < |fragments| ==> fragments[i] == fragments[1..][i - 1];
    }
  }

  /** The loops of `buildGen`: split on MarkA, skip blanks, split each on MarkB. */
  function ParseBuffer(buffer: string): Parsed {
    ParseFragments(Split(buffer, MarkA))
  }

  /** At most one binding per fragment; complete exactly when every non-blank
      fragment has a second piece; a blank buffer, the empty one included,
      reads as no records. */
  lemma ParseBufferFacts(buffer: string)
    ensures var r := ParseBuffer(buffer);
      && |r.bindings| <= |Split(buffer, MarkA)|
      && (r.complete <==> forall f :: f in Split(buffer, MarkA) && !IsBlank(f) ==> ParseFragment(f).Some?)
      && (IsBlank(buffer) ==> r == Parsed([], true))
  {
    ParseFragmentsFacts(Split(buffer, MarkA));
    if IsBlank(buffer) {
      BlankHasNoMarkA(buffer);
      SplitFacts(buffer, MarkA);
    }
  }

  /** A blank string holds no marker: '★' is not whitespace. */
  lemma BlankHasNoMarkA(s: string)
    requires IsBlank(s)
    ensures NoMatchBefore(s, |s|, MarkA)
  {
    assert !IsWhitespace('★') by { assert '\U{205F}' < '★' < '\U{3000}'; }
    forall i | 0 <= i < |s| ensures !StartsWith(s[i..], MarkA) {
      assert s[i..][0] == s[i];
    }
  }

  /** The middle of a record, between its two MarkA. */
  function Body(b: Binding): string {
    b.path + MarkB + b.value
  }

  function Fragments(bs: seq<Binding>): seq<string> {
    if bs == [] then [] else ["", Body(bs[0])] + Fragments(bs[1..])
  }

  lemma NotMarkA(t: string)
    requires |t| >= 2 ==> t[0] != '★' || t[1] != '☆'
    ensures !StartsWith(t, MarkA)
  {
    if |t| >= 2 {
      assert t[..2][0] == t[0] && t[..2][1] == t[1];
    }
  }

  lemma NotMarkB(t: string)
    requires |t| >= 1 ==> t[0] != '☆'
    ensures !StartsWith(t, MarkB)
  {
    if |t| >= 2 {
      assert t[..2][0] == t[0];
    }
  }

  lemma BodyHasNoMarkA(b: Binding, rest: string)
    requires MarkerFree(b.path) && MarkerFree(b.value)
    ensures NoMatchBefore(Body(b) + MarkA + rest, |Body(b)|, MarkA)
  {
    var s := Body(b) + MarkA + rest;
    var p, v := b.path, b.value;
    forall i | 0 <= i < |Body(b)| ensures !StartsWith(s[i..], MarkA) {
      assert s[i..][0] == s[i] && s[i..][1] == s[i + 1];
      if i < |p| {
        assert s[i] == p[i];
      } else if i == |p| {
        assert s[i] == '☆';
      } else if i == |p| + 1 {
        assert s[i + 1] == if v == "" then MarkA[0] else v[0];
      } else {
        assert s[i] == v[i - |p| - 2];
      }
      NotMarkA(s[i..]);
    }
  }

  lemma {:induction false} SplitBufferThen(bs: seq<Binding>, tail: string)
    requires forall b :: b in bs ==> WellFormed(b)
    ensures SplitAll(Buffer(bs) + tail, MarkA) == Fragments(bs) + SplitAll(tail, MarkA)
  {
    if bs != [] {
      assert bs[0] in bs;
      SplitBufferThen(bs[1..], tail);
      SplitBufferStep(bs, tail);
    } else {
      assert Buffer(bs) + tail == tail;
    }
  }

  lemma SplitBufferStep(bs: seq<Binding>, tail: string)
    requires bs != [] && WellFormed(bs[0])
    requires SplitAll(Buffer(bs[1..]) + tail, MarkA) == Fragments(bs[1..]) + SplitAll(tail, MarkA)
    ensures SplitAll(Buffer(bs) + tail, MarkA) == Fragments(bs) + SplitAll(tail, MarkA)
  {
    var b, rest := bs[0], Buffer(bs[1..]) + tail;
    RecordThen(b, Buffer(bs[1..]), tail);
    SplitAllSep(MarkA, Body(b) + MarkA + rest);
    BodyHasNoMarkA(b, rest);
    SplitAllAfter(Body(b), MarkA, rest);
    calc {
      SplitAll(Buffer(bs) + tail, MarkA);
      [""] + ([Body(b)] + SplitAll(rest, MarkA));
      [""] + ([Body(b)] + (Fragments(bs[1..]) + SplitAll(tail, MarkA)));
      { ConsPair("", Body(b), Fragments(bs[1..]), SplitAll(tail, MarkA)); }
      (["", Body(b)] + Fragments(bs[1..])) + SplitAll(tail, MarkA);
    }
  }

  lemma ConsPair(x: string, y: string, front: seq<string>, back: seq<string>)
    ensures [x] + ([y] + (front + back)) == ([x, y] + front) + back
  {
  }

  lemma RecordThen(b: Binding, buffer: string, tail: string)
    ensures Record(b) + buffer + tail == MarkA + (Body(b) + MarkA + (buffer + tail))
  {
  }

  lemma SplitBuffer(bs: seq<Binding>)
    requires forall b :: b in bs ==> WellFormed(b)
    ensures SplitAll(Buffer(bs), MarkA) == Fragments(bs) + [""]
  {
    SplitBufferThen(bs, "");
    assert Buffer(bs) + "" == Buffer(bs);
  }

  lemma SplitBody(b: Binding)
    requires WellFormed(b)
    ensures Split(Body(b), MarkB) == [b.path, b.value]
  {
    SplitAllBody(b);
  }

  lemma SplitAllBody(b: Binding)
    requires MarkerFree(b.path) && MarkerFree(b.value)
    ensures SplitAll(Body(b), MarkB) == [b.path, b.value]
  {
    var p, v := b.path, b.value;
    var s := p + MarkB + v;
    forall i | 0 <= i < |p| ensures !StartsWith(s[i..], MarkB) {
      assert s[i..][0] == s[i] && s[i] == p[i];
      NotMarkB(s[i..]);
    }
    SplitAllAfter(p, MarkB, v);
    forall i | 0 <= i < |v| ensures !StartsWith(v[i..], MarkB) {
      assert v[i..][0] == v[i];
      NotMarkB(v[i..]);
    }
    SplitAllNoMatch(v, MarkB);
  }

  lemma {:induction false} ParseFragmentsOf(bs: seq<Binding>)
    requires forall b :: b in bs ==> WellFormed(b)
    ensures ParseFragments(Fragments(bs)) == Parsed(bs, true)
  {
    if bs != [] {
      var b := bs[0];
      var fs := Fragments(bs);
      assert fs[1..] == [Body(b)] + Fragments(bs[1..]);
      assert ([Body(b)] + Fragments(bs[1..]))[1..] == Fragments(bs[1..]);
      SplitBody(b);
      assert !IsBlank(Body(b)) by {
        assert Body(b)[|b.path|] == '☆';
      }
      ParseFragmentsOf(bs[1..]);
      assert bs == [b] + bs[1..];
    }
  }

  /** What `buildGen` reads back from a buffer is exactly what was appended,
      in append order, provided every record is well formed. */
  lemma RoundTrip(bs: seq<Binding>)
    requires forall b :: b in bs ==> WellFormed(b)
    ensures ParseBuffer(Buffer(bs)) == Parsed(bs, true)
  {
    SplitBuffer(bs);
    var all := Fragments(bs) + [""];
    if bs == [] {
      assert Split(Buffer(bs), MarkA) == [""];
      assert IsBlank("");
    } else {
      LastFragment(bs);
      DropOneTrailingEmpty(Fragments(bs));
      ParseFragmentsOf(bs);
    }
  }

  lemma {:induction false} LastFragment(bs: seq<Binding>)
    requires bs != [] && forall b :: b in bs ==> WellFormed(b)
    ensures |Fragments(bs)| >= 2 && Fragments(bs)[|Fragments(bs)| - 1] == Body(bs[|bs| - 1])
  {
    if |bs| > 1 {
      LastFragment(bs[1..]);
    }
  }

  // ---------------------------------------------------------------------
  // What the round trip does not survive

  lemma SplitAllTwoPieces()
    ensures SplitAll("x" + (MarkA + ""), MarkA) == ["x", ""]
  {
    var t0 := MarkA + "";
    SplitAllSep(MarkA, "");
    assert "x" + t0 == ['x'] + t0;
    NotMarkA(['x'] + t0);
    SplitAllChar('x', t0, MarkA);
    assert ['x'] + "" == "x";
  }

  lemma SplitAllMisreadTail()
    ensures SplitAll("p" + ("☆" + (MarkA + ("x" + (MarkA + "")))), MarkA) == ["p☆", "x", ""]
  {
    var t1 := "x" + (MarkA + "");
    var t2 := MarkA + t1;
    var t3 := "☆" + t2;
    SplitAllTwoPieces();
    SplitAllSep(MarkA, t1);
    assert t3 == ['☆'] + t2;
    NotMarkA(['☆'] + t2);
    SplitAllChar('☆', t2, MarkA);
    assert ['☆'] + "" == "☆";
    assert SplitAll(t3, MarkA) == ["☆", "x", ""];
    assert "p" + t3 == ['p'] + t3;
    NotMarkA(['p'] + t3);
    SplitAllChar('p', t3, MarkA);
    assert ['p'] + "☆" == "p☆";
  }

  lemma UnsplittableFragment()
    ensures ParseFragment("p☆") == None && !IsBlank("p☆")
  {
    assert SplitAll("☆", MarkB) == ["☆"];
    assert "p☆" == ['p'] + "☆";
    NotMarkB("p☆");
    SplitAllChar('p', "☆", MarkB);
    assert SplitAll("p☆", MarkB) == ["p☆"];
    assert "p☆"[0] == 'p';
  }

  /** A value that begins with '☆' holds no marker string, yet the MarkB before
      it and its first character read as a MarkA: `buildGen` cannot split the
      record and would fail on `classInfo[1]`. */
  lemma ValueStartingWithStarIsMisread()
    ensures NoMatchBefore("☆x", 2, MarkA) && NoMatchBefore("☆x", 2, MarkB)
    ensures ParseBuffer(Buffer([Binding("p", "☆x")])) == Parsed([], false)
  {
    MisreadSplit();
    MisreadFragments();
    StarValueHasNoMarker();
  }

  lemma MisreadSplit()
    ensures Split(Buffer([Binding("p", "☆x")]), MarkA) == ["", "p☆", "x"]
  {
    MisreadSplitAll();
    DropOneTrailingEmpty(["", "p☆", "x"]);
    assert ["", "p☆", "x"] + [""] == ["", "p☆", "x", ""];
  }

  lemma MisreadSplitAll()
    ensures SplitAll(Buffer([Binding("p", "☆x")]), MarkA) == ["", "p☆", "x", ""]
  {
    var t4 := "p" + ("☆" + (MarkA + ("x" + (MarkA + ""))));
    MisreadBuffer();
    SplitAllMisreadTail();
    SplitAllSep(MarkA, t4);
  }

  lemma MisreadBuffer()
    ensures Buffer([Binding("p", "☆x")]) == MarkA + ("p" + ("☆" + (MarkA + ("x" + (MarkA + "")))))
  {
    assert [Binding("p", "☆x")][1..] == [];
  }

  lemma DropOneTrailingEmpty(parts: seq<string>)
    requires parts != [] && parts[|parts| - 1] != ""
    ensures DropTrailingEmpty(parts + [""]) == parts
  {
    assert (parts + [""])[..|parts|] == parts;
  }

  lemma MisreadFragments()
    ensures ParseFragments(["", "p☆", "x"]) == Parsed([], false)
  {
    UnsplittableFragment();
    assert IsBlank("") && ["", "p☆", "x"][1..] == ["p☆", "x"];
    assert ParseFragments(["p☆", "x"]) == Parsed([], false);
  }

  lemma StarValueHasNoMarker()
    ensures NoMatchBefore("☆x", 2, MarkA) && NoMatchBefore("☆x", 2, MarkB)
  {
    assert NoMatchBefore("☆x", 2, MarkA) by { NotMarkA("☆x"); NotMarkA("☆x"[1..]); }
    assert NoMatchBefore("☆x", 2, MarkB) by { assert "☆x"[1..] == "x"; NotMarkB("x"); }
  }

  lemma SplitAllEmptyValueTail()
    ensures SplitAll("p" + ("☆" + ("★" + (MarkA + ""))), MarkA) == ["p☆★", ""]
  {
    var t0 := MarkA + "";
    var t1 := "★" + t0;
    var t2 := "☆" + t1;
    SplitAllSep(MarkA, "");
    assert t1 == ['★'] + t0;
    NotMarkA(['★'] + t0);
    SplitAllChar('★', t0, MarkA);
    assert ['★'] + "" == "★";
    assert t2 == ['☆'] + t1;
    NotMarkA(['☆'] + t1);
    SplitAllChar('☆', t1, MarkA);
    assert ['☆'] + "★" == "☆★";
    assert "p" + t2 == ['p'] + t2;
    NotMarkA(['p'] + t2);
    SplitAllChar('p', t2, MarkA);
    assert ['p'] + "☆★" == "p☆★";
  }

  lemma OnePieceFragment()
    ensures ParseFragment("p☆★") == None && !IsBlank("p☆★")
  {
    SplitAllSep(MarkB, "");
    assert "p☆★" == ['p'] + (MarkB + "");
    NotMarkB("p☆★");
    SplitAllChar('p', MarkB + "", MarkB);
    assert MarkB + "" == MarkB && ['p'] + "" == "p";
    assert SplitAll("p☆★", MarkB) == ["p", ""];
    assert Split("p☆★", MarkB) == ["p"];
    assert "p☆★"[0] == 'p';
    assert !IsWhitespace('p') by { assert '\U{001F}' < 'p' < '\U{1680}'; }
  }

  /** An empty value leaves a fragment that splits into one piece only. */
  lemma EmptyValueIsMisread()
    ensures ParseBuffer(Buffer([Binding("p", "")])) == Parsed([], false)
  {
    var buf := Buffer([Binding("p", "")]);
    var t3 := "p" + ("☆" + ("★" + (MarkA + "")));
    assert buf == MarkA + t3;
    SplitAllEmptyValueTail();
    SplitAllSep(MarkA, t3);
    assert Split(buf, MarkA) == ["", "p☆★"];
    OnePieceFragment();
    assert IsBlank("") && ["", "p☆★"][1..] == ["p☆★"];
    assert ParseFragments(["p☆★"]) == Parsed([], false);
  }

  // ---------------------------------------------------------------------
  // The template-cache key

  /** `buildGenKey`: both buffers are always non-null, so both blocks apply. */
  function GenKey(serviceInterface: string, methodName: string, classInfoBuffer: string, paramBuffer: string): (r: string)
  {
    MarkA + serviceInterface + MarkB + methodName + MarkA
    + MarkA + classInfoBuffer + MarkA
    + MarkA + paramBuffer + MarkA
  }

  /** Where each part sits in the key: the interface after the first MarkA,
      the method name after MarkB, each buffer between two MarkA of its own. */
  lemma GenKeyLayout(serviceInterface: string, methodName: string, classInfoBuffer: string, paramBuffer: string)
    ensures var r := GenKey(serviceInterface, methodName, classInfoBuffer, paramBuffer);
      var n := |serviceInterface| + |methodName|;
      && |r| == n + |classInfoBuffer| + |paramBuffer| + 14
      && StartsWith(r, Record(Binding(serviceInterface, methodName)))
      && r[2..2 + |serviceInterface|] == serviceInterface
      && r[4 + |serviceInterface|..4 + n] == methodName
      && r[8 + n..8 + n + |classInfoBuffer|] == classInfoBuffer
      && r[12 + n + |classInfoBuffer|..|r| - 2] == paramBuffer
  {
  }

  function Bodies(bs: seq<Binding>): seq<string> {
    if bs == [] then [] else [Body(bs[0])] + Bodies(bs[1..])
  }

  /** Reads ["", body] pairs with a non-empty body, as Fragments lays them out. */
  function ReadBodies(fs: seq<string>): (seq<string>, seq<string>)
    decreases |fs|
  {
    if |fs| >= 2 && fs[0] == "" && fs[1] != "" then
      var (bodies, rest) := ReadBodies(fs[2..]);
      ([fs[1]] + bodies, rest)
    else ([], fs)
  }

  lemma {:induction false} ReadBodiesOf(bs: seq<Binding>, tail: seq<string>)
    requires forall b :: b in bs ==> WellFormed(b)
    requires |tail| >= 2 && tail[1] == ""
    ensures ReadBodies(Fragments(bs) + tail) == (Bodies(bs), tail)
  {
    if bs != [] {
      var fs := Fragments(bs) + tail;
      assert fs == ["", Body(bs[0])] + (Fragments(bs[1..]) + tail);
      assert fs[2..] == Fragments(bs[1..]) + tail;
      assert Body(bs[0]) != "" by { assert |Body(bs[0])| >= 2; }
      ReadBodiesOf(bs[1..], tail);
    } else {
      assert Fragments(bs) + tail == tail;
    }
  }

  lemma {:induction false} BodiesInjective(bs: seq<Binding>, bs': seq<Binding>)
    requires forall b :: b in bs ==> WellFormed(b)
    requires forall b :: b in bs' ==> WellFormed(b)
    requires Bodies(bs) == Bodies(bs')
    ensures bs == bs'
  {
    if bs != [] && bs' != [] {
      assert Bodies(bs) == [Body(bs[0])] + Bodies(bs[1..]);
      assert Bodies(bs') == [Body(bs'[0])] + Bodies(bs'[1..]);
      assert bs[0] in bs && bs'[0] in bs';
      SplitBody(bs[0]);
      SplitBody(bs'[0]);
      assert Body(bs[0]) == Bodies(bs)[0] == Body(bs'[0]);
      assert Bodies(bs[1..]) == Bodies(bs)[1..] == Bodies(bs'[1..]);
      BodiesInjective(bs[1..], bs'[1..]);
      assert bs == [bs[0]] + bs[1..] && bs' == [bs'[0]] + bs'[1..];
    }
  }

  lemma GenKeyShape(i: string, m: string, c: string, p: string)
    ensures GenKey(i, m, c, p)
         == MarkA + (Body(Binding(i, m)) + MarkA + (MarkA + (c + (MarkA + (MarkA + (p + MarkA))))))
  {}

  lemma SplitParamPart(ps: seq<Binding>)
    requires forall b :: b in ps ==> WellFormed(b)
    ensures SplitAll(MarkA + (MarkA + (Buffer(ps) + MarkA)), MarkA) == ["", ""] + (Fragments(ps) + ["", ""])
  {
    SplitAllSep(MarkA, MarkA + (Buffer(ps) + MarkA));
    SplitAllSep(MarkA, Buffer(ps) + MarkA);
    SplitBufferThen(ps, MarkA);
    SplitAllSep(MarkA, "");
    assert MarkA + "" == MarkA;
    assert SplitAll(MarkA, MarkA) == ["", ""];
  }

  lemma SplitClassPart(cs: seq<Binding>, ps: seq<Binding>)
    requires forall b :: b in cs ==> WellFormed(b)
    requires forall b :: b in ps ==> WellFormed(b)
    ensures SplitAll(MarkA + (Buffer(cs) + (MarkA + (MarkA + (Buffer(ps) + MarkA)))), MarkA)
         == [""] + (Fragments(cs) + (["", ""] + (Fragments(ps) + ["", ""])))
  {
    var r2 := MarkA + (MarkA + (Buffer(ps) + MarkA));
    SplitAllSep(MarkA, Buffer(cs) + r2);
    SplitBufferThen(cs, r2);
    SplitParamPart(ps);
  }

  lemma SplitGenKey(serviceInterface: string, methodName: string, cs: seq<Binding>, ps: seq<Binding>)
    requires MarkerFree(serviceInterface) && MarkerFree(methodName)
    requires forall b :: b in cs ==> WellFormed(b)
    requires forall b :: b in ps ==> WellFormed(b)
    ensures SplitAll(GenKey(serviceInterface, methodName, Buffer(cs), Buffer(ps)), MarkA)
         == [""] + ([serviceInterface + MarkB + methodName]
              + ([""] + (Fragments(cs) + (["", ""] + (Fragments(ps) + ["", ""])))))
  {
    var head := Binding(serviceInterface, methodName);
    var r1 := MarkA + (Buffer(cs) + (MarkA + (MarkA + (Buffer(ps) + MarkA))));
    GenKeyShape(serviceInterface, methodName, Buffer(cs), Buffer(ps));
    SplitAllSep(MarkA, Body(head) + MarkA + r1);
    BodyHasNoMarkA(head, r1);
    SplitAllAfter(Body(head), MarkA, r1);
    SplitClassPart(cs, ps);
  }

  /** Reads a key back into the interface/method piece and the record bodies of each buffer. */
  function DecodeKey(key: string): Option<(string, seq<string>, seq<string>)> {
    var l := SplitAll(key, MarkA);
    if |l| < 3 then None
    else
      var (classBodies, rest) := ReadBodies(l[3..]);
      if |rest| < 2 then None
      else Some((l[1], classBodies, ReadBodies(rest[2..]).0))
  }

  lemma DecodeGenKey(i: string, m: string, cs: seq<Binding>, ps: seq<Binding>)
    requires MarkerFree(i) && MarkerFree(m)
    requires forall b :: b in cs ==> WellFormed(b)
    requires forall b :: b in ps ==> WellFormed(b)
    ensures DecodeKey(GenKey(i, m, Buffer(cs), Buffer(ps))) == Some((Body(Binding(i, m)), Bodies(cs), Bodies(ps)))
  {
    SplitGenKey(i, m, cs, ps);
    var tail := ["", ""] + (Fragments(ps) + ["", ""]);
    var l := [""] + ([i + MarkB + m] + ([""] + (Fragments(cs) + tail)));
    assert l[1] == Body(Binding(i, m));
    assert l[3..] == Fragments(cs) + tail;
    ReadBodiesOf(cs, tail);
    assert tail[2..] == Fragments(ps) + ["", ""];
    ReadBodiesOf(ps, ["", ""]);
  }

  /** Equal keys of well-formed schemas decode to the same pieces. */
  lemma GenKeyParts(i: string, m: string, cs: seq<Binding>, ps: seq<Binding>,
                    i': string, m': string, cs': seq<Binding>, ps': seq<Binding>)
    requires MarkerFree(i) && MarkerFree(m) && MarkerFree(i') && MarkerFree(m')
    requires forall b :: b in cs ==> WellFormed(b)
    requires forall b :: b in ps ==> WellFormed(b)
    requires forall b :: b in cs' ==> WellFormed(b)
    requires forall b :: b in ps' ==> WellFormed(b)
    requires GenKey(i, m, Buffer(cs), Buffer(ps)) == GenKey(i', m', Buffer(cs'), Buffer(ps'))
    ensures Body(Binding(i, m)) == Body(Binding(i', m')) && Bodies(cs) == Bodies(cs') && Bodies(ps) == Bodies(ps')
  {
    DecodeGenKey(i, m, cs, ps);
    DecodeGenKey(i', m', cs', ps');
  }

  /** Different schemas never share a cache entry: the key determines the
      interface, the method and both record lists. */
  lemma GenKeyInjective(i: string, m: string, cs: seq<Binding>, ps: seq<Binding>,
                        i': string, m': string, cs': seq<Binding>, ps': seq<Binding>)
    requires MarkerFree(i) && MarkerFree(m) && MarkerFree(i') && MarkerFree(m')
    requires forall b :: b in cs ==> WellFormed(b)
    requires forall b :: b in ps ==> WellFormed(b)
    requires forall b :: b in cs' ==> WellFormed(b)
    requires forall b :: b in ps' ==> WellFormed(b)
    requires GenKey(i, m, Buffer(cs), Buffer(ps)) == GenKey(i', m', Buffer(cs'), Buffer(ps'))
    ensures i == i' && m == m' && cs == cs' && ps == ps'
  {
    GenKeyParts(i, m, cs, ps, i', m', cs', ps');
    SplitAllBody(Binding(i, m));
    SplitAllBody(Binding(i', m'));
    BodiesInjective(cs, cs');
    BodiesInjective(ps, ps');
  }
}

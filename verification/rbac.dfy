/** The permission grammar `subject.resource.action[.object]`: a string split on
    `.` into three or four segments, `*` standing for "any", a missing object
    meaning "any object". */
module RbacGrammar {
  import opened Results

  const Separator: char := '.'
  const WildcardText: string := "*"

  /** One position of a permission: the wildcard `RbacSegment.All` or a literal. */
  datatype Segment = All | Literal(name: string)

  datatype Rbac = Rbac(subject: Segment, resource: Segment, action: Segment, obj: Segment)

  datatype RbacError = MalformedRbac(text: string)

  predicate NoSeparator(s: string) {
    forall i :: 0 <= i < |s| ==> s[i] != Separator
  }

  /** Split on every separator; the empty string is one empty part. */
  function Split(s: string): (parts: seq<string>)
    ensures |parts| >= 1
    decreases |s|
  {
    if |s| == 0 then [""]
    else
      var rest := Split(s[1..]);
      if s[0] == Separator then [""] + rest
      else [[s[0]] + rest[0]] + rest[1..]
  }

  /** Glue parts back together with the separator between neighbours. */
  function Join(parts: seq<string>): string
    requires |parts| >= 1
  {
    if |parts| == 1 then parts[0] else parts[0] + [Separator] + Join(parts[1..])
  }

  /** Splitting never loses or invents a character. */
  lemma {:induction false} JoinSplit(s: string)
    ensures Join(Split(s)) == s
    ensures forall k :: 0 <= k < |Split(s)| ==> NoSeparator(Split(s)[k])
    decreases |s|
  {
    if |s| > 0 {
      JoinSplit(s[1..]);
      var rest := Split(s[1..]);
      if s[0] == Separator {
        assert Split(s) == [""] + rest;
        assert Join(Split(s)) == "" + [Separator] + Join(rest);
      } else {
        var parts := Split(s);
        assert parts == [[s[0]] + rest[0]] + rest[1..];
        if |rest| == 1 {
          assert Join(parts) == [s[0]] + rest[0];
        } else {
          assert parts[1..] == rest[1..];
          assert Join(parts) == [s[0]] + rest[0] + [Separator] + Join(rest[1..]);
          assert Join(rest) == rest[0] + [Separator] + Join(rest[1..]);
        }
        forall k | 0 <= k < |parts| ensures NoSeparator(parts[k]) {
          if k == 0 {
            assert NoSeparator(rest[0]);
            assert parts[0] == [s[0]] + rest[0];
          } else {
            assert parts[k] == rest[k];
          }
        }
      }
    }
  }

  /** Splitting a part free of separators followed by more text peels that part off. */
  lemma {:induction false} SplitCons(a: string, tail: string)
    requires NoSeparator(a)
    ensures Split(a + [Separator] + tail) == [a] + Split(tail)
    decreases |a|
  {
    if |a| == 0 {
      assert a + [Separator] + tail == [Separator] + tail;
      assert ([Separator] + tail)[1..] == tail;
    } else {
      SplitCons(a[1..], tail);
      var s := a + [Separator] + tail;
      assert s[0] == a[0];
      assert s[1..] == a[1..] + [Separator] + tail;
      assert [a[0]] + a[1..] == a;
    }
  }

  /** Joining parts that contain no separator and splitting again gives the parts back. */
  lemma {:induction false} SplitJoin(parts: seq<string>)
    requires |parts| >= 1
    requires forall k :: 0 <= k < |parts| ==> NoSeparator(parts[k])
    ensures Split(Join(parts)) == parts
    decreases |parts|
  {
    if |parts| == 1 {
      SplitNoSeparator(parts[0]);
    } else {
      SplitJoin(parts[1..]);
      SplitCons(parts[0], Join(parts[1..]));
    }
  }

  lemma {:induction false} SplitNoSeparator(s: string)
    requires NoSeparator(s)
    ensures Split(s) == [s]
    decreases |s|
  {
    if |s| > 0 {
      SplitNoSeparator(s[1..]);
      assert [s[0]] + s[1..] == s;
    }
  }

  /** A single non-empty segment: `*` is the wildcard, anything else a literal. */
  function ToSegment(text: string): Segment {
    if text == WildcardText then All else Literal(text)
  }

  function ShowSegment(seg: Segment): string {
    match seg
    case All => WildcardText
    case Literal(name) => name
  }

  /** A segment the grammar can produce: a literal is non-empty, has no
      separator and is not the wildcard text. */
  predicate WellFormedSegment(seg: Segment) {
    seg.Literal? ==> seg.name != "" && seg.name != WildcardText && NoSeparator(seg.name)
  }

  predicate WellFormed(r: Rbac) {
    && WellFormedSegment(r.subject) && WellFormedSegment(r.resource)
    && WellFormedSegment(r.action) && WellFormedSegment(r.obj)
  }

  predicate NoEmptyPart(parts: seq<string>) {
    forall k :: 0 <= k < |parts| ==> parts[k] != ""
  }

  /** `Rbac.Parse`: three or four non-empty segments, the object defaulting to
      the wildcard when the fourth segment is absent. */
  function Parse(text: string): (r: Result<Rbac, RbacError>)
    ensures r.Ok? ==> WellFormed(r.value)
    ensures r.Err? ==> r.error == MalformedRbac(text)
    ensures r.Ok? <==> (|Split(text)| == 3 || |Split(text)| == 4) && NoEmptyPart(Split(text))
  {
    var parts := Split(text);
    if (|parts| == 3 || |parts| == 4) && NoEmptyPart(parts) then
      JoinSplit(text);
      assert NoSeparator(parts[0]) && NoSeparator(parts[1]) && NoSeparator(parts[2]);
      assert |parts| == 4 ==> NoSeparator(parts[3]) && parts[3] != "";
      Ok(Rbac(ToSegment(parts[0]), ToSegment(parts[1]), ToSegment(parts[2]),
              if |parts| == 4 then ToSegment(parts[3]) else All))
    else
      Err(MalformedRbac(text))
  }

  /** The canonical text: always four segments, `*` for every wildcard. */
  function Render(r: Rbac): string {
    Join([ShowSegment(r.subject), ShowSegment(r.resource), ShowSegment(r.action), ShowSegment(r.obj)])
  }

  lemma ShowSegmentParts(seg: Segment)
    requires WellFormedSegment(seg)
    ensures ToSegment(ShowSegment(seg)) == seg
    ensures NoSeparator(ShowSegment(seg)) && ShowSegment(seg) != ""
  {
  }

  /** Rendering a well-formed permission and parsing it again is the identity. */
  lemma ParseRender(r: Rbac)
    requires WellFormed(r)
    ensures Parse(Render(r)) == Ok(r)
  {
    var parts := [ShowSegment(r.subject), ShowSegment(r.resource), ShowSegment(r.action), ShowSegment(r.obj)];
    ShowSegmentParts(r.subject);
    ShowSegmentParts(r.resource);
    ShowSegmentParts(r.action);
    ShowSegmentParts(r.obj);
    SplitJoin(parts);
  }

  /** Joining one more part appends a separator and that part. */
  lemma {:induction false} JoinSnoc(parts: seq<string>, last: string)
    requires |parts| >= 1
    ensures Join(parts + [last]) == Join(parts) + [Separator] + last
    decreases |parts|
  {
    if |parts| > 1 {
      assert (parts + [last])[1..] == parts[1..] + [last];
      JoinSnoc(parts[1..], last);
    }
  }

  /** A successful parse renders back to the input (four segments) or to the
      input with `.*` appended (three segments): the canonical form. */
  lemma RenderParse(text: string)
    requires Parse(text).Ok?
    ensures |Split(text)| == 4 ==> Render(Parse(text).value) == text
    ensures |Split(text)| == 3 ==> Render(Parse(text).value) == text + [Separator] + WildcardText
  {
    var parts := Split(text);
    JoinSplit(text);
    var r := Parse(text).value;
    var shown := [ShowSegment(r.subject), ShowSegment(r.resource), ShowSegment(r.action), ShowSegment(r.obj)];
    if |parts| == 4 {
      assert shown == parts;
    } else {
      assert shown == parts + [WildcardText];
      JoinSnoc(parts, WildcardText);
    }
  }

  /** Parsing a permission written out segment by segment. */
  lemma ParseFour(a: string, b: string, c: string, d: string)
    requires NoSeparator(a) && NoSeparator(b) && NoSeparator(c) && NoSeparator(d)
    requires a != "" && b != "" && c != "" && d != ""
    ensures Parse(a + "." + b + "." + c + "." + d) ==
      Ok(Rbac(ToSegment(a), ToSegment(b), ToSegment(c), ToSegment(d)))
  {
    var parts := [a, b, c, d];
    assert Join([d]) == d;
    assert [c, d][1..] == [d];
    assert Join([c, d]) == c + "." + d;
    assert [b, c, d][1..] == [c, d];
    assert Join([b, c, d]) == b + "." + (c + "." + d);
    assert parts[1..] == [b, c, d];
    assert Join(parts) == a + "." + (b + "." + (c + "." + d));
    assert Join(parts) == a + "." + b + "." + c + "." + d;
    SplitJoin(parts);
  }

  lemma ParseThree(a: string, b: string, c: string)
    requires NoSeparator(a) && NoSeparator(b) && NoSeparator(c)
    requires a != "" && b != "" && c != ""
    ensures Parse(a + "." + b + "." + c) == Ok(Rbac(ToSegment(a), ToSegment(b), ToSegment(c), All))
  {
    var parts := [a, b, c];
    assert Join([c]) == c;
    assert [b, c][1..] == [c];
    assert Join([b, c]) == b + "." + c;
    assert parts[1..] == [b, c];
    assert Join(parts) == a + "." + (b + "." + c);
    assert Join(parts) == a + "." + b + "." + c;
    SplitJoin(parts);
  }
}

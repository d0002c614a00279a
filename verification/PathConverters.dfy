/** Two converters of `:name` path parameters to `{name}`: a loop over bytes
    (internal/codegen/generator.go) and a split, rewrite and join (internal/openapi/mapper.go). */
module PathConverters {
  import opened Strings

  // ----- the byte loop -----

  /** Up to the next slash, the name of a parameter. */
  function NameEnd(path: string): (n: nat)
    ensures n <= |path|
  {
    if path == "" || path[0] == '/' then 0 else 1 + NameEnd(path[1..])
  }

  function ToChi(path: string): string
    decreases |path|
  {
    if path == "" then ""
    else if path[0] == ':' then
      var n := NameEnd(path[1..]);
      "{" + path[1..1 + n] + "}" + ToChi(path[1 + n..])
    else [path[0]] + ToChi(path[1..])
  }

  method ConvertPathToChi(path: string) returns (result: string)
    ensures result == ToChi(path)
  {
    result := "";
    var i := 0;
    while i < |path|
      invariant 0 <= i <= |path|
      invariant result + ToChi(path[i..]) == ToChi(path)
    {
      ghost var before, start := result, i;
      if path[i] == ':' {
        result := result + ['{'];
        i := i + 1;
        while i < |path| && path[i] != '/'
          invariant start + 1 <= i <= |path|
          invariant result == before + ['{'] + path[start + 1..i]
          invariant i + NameEnd(path[i..]) == start + 1 + NameEnd(path[start + 1..])
        {
          NameStep(path, start, i);
          Longer(before + ['{'], path, start + 1, i);
          result := result + [path[i]];
          i := i + 1;
        }
        result := result + ['}'];
        ParameterStep(path, start, i, before);
      } else {
        PlainStep(path, i, before);
        result := result + [path[i]];
        i := i + 1;
      }
    }
  }

  lemma Longer(before: string, path: string, from: nat, i: nat)
    requires from <= i < |path|
    ensures before + path[from..i] + [path[i]] == before + path[from..i + 1]
  {
  }

  lemma NameStep(path: string, start: nat, i: nat)
    requires start < i < |path| && path[i] != '/'
    ensures NameEnd(path[i..]) == 1 + NameEnd(path[i + 1..])
  {
    assert path[i..][1..] == path[i + 1..];
  }

  lemma ParameterStep(path: string, start: nat, i: nat, before: string)
    requires start < i <= |path| && path[start] == ':' && i == start + 1 + NameEnd(path[start + 1..])
    ensures before + ['{'] + path[start + 1..i] + ['}'] + ToChi(path[i..]) == before + ToChi(path[start..])
  {
    var rest := path[start..];
    assert rest[1..] == path[start + 1..];
    assert rest[1..i - start] == path[start + 1..i] && rest[i - start..] == path[i..];
    var name, tail := path[start + 1..i], ToChi(path[i..]);
    assert ToChi(rest) == "{" + name + "}" + tail;
    assert before + ['{'] + name + ['}'] + tail == before + ("{" + name + "}" + tail);
  }

  lemma PlainStep(path: string, i: nat, before: string)
    requires i < |path| && path[i] != ':'
    ensures before + [path[i]] + ToChi(path[i + 1..]) == before + ToChi(path[i..])
  {
    assert path[i..][1..] == path[i + 1..];
    assert before + [path[i]] + ToChi(path[i + 1..]) == before + ([path[i]] + ToChi(path[i + 1..]));
  }

  // ----- split, rewrite, join -----

  predicate StartsWithColon(part: string) {
    part != "" && part[0] == ':'
  }

  function Rewritten(part: string): string {
    if StartsWithColon(part) then "{" + part[1..] + "}" else part
  }

  function Each(f: string -> string, parts: seq<string>): (r: seq<string>)
    ensures |r| == |parts| && forall i :: 0 <= i < |parts| ==> r[i] == f(parts[i])
  {
    seq(|parts|, i requires 0 <= i < |parts| => f(parts[i]))
  }

  function ToOpenApi(path: string): string {
    Join(Each(Rewritten, Split(path, '/')), '/')
  }

  method ConvertPathParams(path: string) returns (result: string)
    ensures result == ToOpenApi(path)
  {
    var parts := Split(path, '/');
    ghost var original := parts;
    for i := 0 to |parts|
      invariant |parts| == |original|
      invariant forall j :: 0 <= j < i ==> parts[j] == Rewritten(original[j])
      invariant forall j :: i <= j < |parts| ==> parts[j] == original[j]
    {
      if StartsWithColon(parts[i]) {
        parts := parts[i := "{" + parts[i][1..] + "}"];
      }
    }
    assert parts == Each(Rewritten, original);
    result := Join(parts, '/');
  }

  // ----- both act segment by segment -----

  /** The byte loop on one segment: everything after its first colon is the name. */
  function ChiSegment(part: string): string {
    if part == "" then ""
    else if part[0] == ':' then "{" + part[1..] + "}"
    else [part[0]] + ChiSegment(part[1..])
  }

  lemma {:induction false} NameIsRest(part: string, rest: string)
    requires '/' !in part && (rest == "" || rest[0] == '/')
    ensures NameEnd(part + rest) == |part|
    decreases |part|
  {
    if part == "" {
      assert part + rest == rest;
    } else {
      assert (part + rest)[1..] == part[1..] + rest;
      NameIsRest(part[1..], rest);
    }
  }

  lemma {:induction false} ChiOfSegment(part: string, rest: string)
    requires '/' !in part && (rest == "" || rest[0] == '/')
    ensures ToChi(part + rest) == ChiSegment(part) + ToChi(rest)
    decreases |part|
  {
    var s := part + rest;
    if part == "" {
      assert s == rest;
      assert "" + ToChi(rest) == ToChi(rest);
    } else {
      assert s[1..] == part[1..] + rest;
      if part[0] == ':' {
        NameIsRest(part[1..], rest);
        assert s[1..|part|] == part[1..] && s[|part|..] == rest;
      } else {
        ChiOfSegment(part[1..], rest);
        assert [part[0]] + (ChiSegment(part[1..]) + ToChi(rest)) == [part[0]] + ChiSegment(part[1..]) + ToChi(rest);
      }
    }
  }

  predicate NoSlash(parts: seq<string>) {
    forall i :: 0 <= i < |parts| ==> '/' !in parts[i]
  }

  lemma {:induction false} ChiOfJoin(parts: seq<string>)
    requires parts != [] && NoSlash(parts)
    ensures ToChi(Join(parts, '/')) == Join(Each(ChiSegment, parts), '/')
    decreases |parts|
  {
    var mapped := Each(ChiSegment, parts);
    if |parts| == 1 {
      assert parts[0] + "" == parts[0];
      ChiOfSegment(parts[0], "");
      assert ChiSegment(parts[0]) + "" == ChiSegment(parts[0]);
    } else {
      var tail := Join(parts[1..], '/');
      ChiOfJoin(parts[1..]);
      assert Each(ChiSegment, parts[1..]) == mapped[1..];
      assert Join(parts, '/') == parts[0] + (['/'] + tail);
      assert (['/'] + tail)[1..] == tail;
      ChiOfSegment(parts[0], ['/'] + tail);
      assert Join(mapped, '/') == ChiSegment(parts[0]) + (['/'] + ToChi(tail));
    }
  }

  lemma {:induction false} ChiSegmentWhole(part: string)
    requires '/' !in part
    ensures '/' !in ChiSegment(part)
    ensures ':' !in part ==> ChiSegment(part) == part
    ensures ':' in part ==> |ChiSegment(part)| == |part| + 1
    decreases |part|
  {
    if part != "" && part[0] != ':' {
      ChiSegmentWhole(part[1..]);
    }
  }

  /** Neither converter changes the number of segments. */
  lemma SegmentsKept(path: string)
    ensures Split(ToChi(path), '/') == Each(ChiSegment, Split(path, '/'))
    ensures Split(ToOpenApi(path), '/') == Each(Rewritten, Split(path, '/'))
  {
    var parts := Split(path, '/');
    JoinSplit(path, '/');
    SplitParts(path, '/');
    ChiOfJoin(parts);
    forall i | 0 <= i < |parts| ensures '/' !in ChiSegment(parts[i]) {
      ChiSegmentWhole(parts[i]);
    }
    SplitJoin(Each(ChiSegment, parts), '/');
    SplitJoin(Each(Rewritten, parts), '/');
  }

  /** A colon, if there is one, comes first. */
  predicate Agreeable(part: string) {
    ':' in part ==> part[0] == ':'
  }

  lemma SegmentsAgree(part: string)
    requires '/' !in part
    ensures ChiSegment(part) == Rewritten(part) <==> Agreeable(part)
  {
    ChiSegmentWhole(part);
  }

  /** The converters agree exactly on the paths all of whose segments that contain a colon begin
      with one. */
  lemma AgreeExactly(path: string)
    ensures ToChi(path) == ToOpenApi(path)
       <==> forall i :: 0 <= i < |Split(path, '/')| ==> Agreeable(Split(path, '/')[i])
  {
    var parts := Split(path, '/');
    SegmentsKept(path);
    SplitParts(path, '/');
    forall i | 0 <= i < |parts|
      ensures Each(ChiSegment, parts)[i] == Each(Rewritten, parts)[i] <==> Agreeable(parts[i])
    {
      SegmentsAgree(parts[i]);
    }
    JoinSplit(ToChi(path), '/');
    JoinSplit(ToOpenApi(path), '/');
    if forall i :: 0 <= i < |parts| ==> Agreeable(parts[i]) {
      assert Each(ChiSegment, parts) == Each(Rewritten, parts);
    }
  }

  /** They differ when a segment has text before its colon. */
  lemma Disagree()
    ensures ToChi("a:b") == "a{b}" && ToOpenApi("a:b") == "a:b"
  {
    ChiOfSegment("a:b", "");
    assert "a:b" + "" == "a:b" && "a:b"[1..] == ":b" && ":b"[1..] == "b";
    assert ChiSegment(":b") == "{b}";
    SplitJoin(["a:b"], '/');
    assert Each(Rewritten, ["a:b"]) == ["a:b"];
  }
}

/** Splitting and joining strings on one character, as Go's strings package does. */
module Strings {

  function Split(s: string, sep: char): (parts: seq<string>)
    ensures parts != []
  {
    if s == "" then [""]
    else
      var rest := Split(s[1..], sep);
      if s[0] == sep then [""] + rest else [[s[0]] + rest[0]] + rest[1..]
  }

  function Join(parts: seq<string>, sep: char): string {
    if parts == [] then ""
    else if |parts| == 1 then parts[0]
    else parts[0] + [sep] + Join(parts[1..], sep)
  }

  lemma {:induction false} JoinSplit(s: string, sep: char)
    ensures Join(Split(s, sep), sep) == s
    decreases |s|
  {
    if s != "" {
      JoinSplit(s[1..], sep);
      var rest := Split(s[1..], sep);
      var parts := Split(s, sep);
      if s[0] == sep {
        assert parts[1..] == rest;
        assert Join(parts, sep) == "" + [sep] + Join(rest, sep);
      } else {
        assert parts[1..] == rest[1..];
      }
    }
  }

  lemma {:induction false} SplitParts(s: string, sep: char)
    ensures forall i :: 0 <= i < |Split(s, sep)| ==> sep !in Split(s, sep)[i]
    decreases |s|
  {
    if s != "" {
      SplitParts(s[1..], sep);
    }
  }

  lemma {:induction false} SplitJoin(parts: seq<string>, sep: char)
    requires parts != [] && forall i :: 0 <= i < |parts| ==> sep !in parts[i]
    ensures Split(Join(parts, sep), sep) == parts
    decreases |parts|, |parts[0]|
  {
    var s := Join(parts, sep);
    if parts[0] == "" {
      if |parts| > 1 {
        SplitJoin(parts[1..], sep);
        assert s == [sep] + Join(parts[1..], sep);
        assert s[1..] == Join(parts[1..], sep);
      }
    } else {
      var shorter := [parts[0][1..]] + parts[1..];
      SplitJoin(shorter, sep);
      assert shorter[1..] == parts[1..];
      assert parts[0] == [parts[0][0]] + parts[0][1..];
      assert s == [parts[0][0]] + Join(shorter, sep);
      assert s[1..] == Join(shorter, sep);
      assert parts == [parts[0]] + parts[1..];
    }
  }
}

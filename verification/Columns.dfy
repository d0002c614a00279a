/** The column of a field, without the compiler: the one the entity lists, or the field's words in
    small letters, joined by underscores. */
module Columns {
  import QueryAst
  import Strings

  predicate IsCapital(c: char) {
    'A' <= c <= 'Z'
  }

  predicate IsSmall(c: char) {
    'a' <= c <= 'z'
  }

  function Small(c: char): char {
    if IsCapital(c) then 'a' + (c - 'A') else c
  }

  function Capital(c: char): char
    requires IsSmall(c)
  {
    'A' + (c - 'a')
  }

  /** A name cut before every capital letter but the first character. */
  function Words(s: string): (words: seq<string>)
    ensures words != []
  {
    if |s| <= 1 then [s] else
    var rest := Words(s[1..]);
    if IsCapital(s[1]) then [[s[0]]] + rest else [[s[0]] + rest[0]] + rest[1..]
  }

  function Smalls(s: string): (r: string)
    ensures |r| == |s|
  {
    seq(|s|, i requires 0 <= i < |s| => Small(s[i]))
  }

  function SmallWords(words: seq<string>): (r: seq<string>)
    ensures |r| == |words|
  {
    seq(|words|, i requires 0 <= i < |words| => Smalls(words[i]))
  }

  function Snake(field: string): string {
    Strings.Join(SmallWords(Words(field)), '_')
  }

  function FieldColumn(entity: QueryAst.EntityMeta, field: string): string {
    if field in entity.columns then entity.columns[field] else Snake(field)
  }

  // ----- reading a column back -----

  /** An underscore before a small letter stands for its capital. */
  function Camel(col: string): string {
    if col == "" then ""
    else if col[0] == '_' && |col| > 1 && IsSmall(col[1]) then [Capital(col[1])] + Camel(col[2..])
    else [col[0]] + Camel(col[1..])
  }

  /** A field as the language's users write it: no underscore, no capital in front. */
  predicate IsCamel(field: string) {
    '_' !in field && (field != "" ==> !IsCapital(field[0]))
  }

  lemma SmallsPush(c: char, s: string)
    ensures Smalls([c] + s) == [Small(c)] + Smalls(s)
  {
  }

  lemma SmallWordsPush(word: string, words: seq<string>)
    ensures SmallWords([word] + words) == [Smalls(word)] + SmallWords(words)
    ensures words != [] ==> SmallWords(words) == [Smalls(words[0])] + SmallWords(words[1..])
  {
  }

  /** Character by character: an underscore before each capital but the first, and all small. */
  lemma WordsStep(s: string)
    requires |s| > 1
    ensures Snake(s) == [Small(s[0])] + ((if IsCapital(s[1]) then "_" else "") + Snake(s[1..]))
  {
    var rest := Words(s[1..]);
    var small := SmallWords(rest);
    SmallsPush(s[0], "");
    assert [s[0]] + "" == [s[0]];
    if IsCapital(s[1]) {
      SmallWordsPush([s[0]], rest);
      assert ([[Small(s[0])]] + small)[1..] == small;
    } else {
      SmallWordsPush([s[0]] + rest[0], rest[1..]);
      SmallWordsPush(rest[0], rest);
      SmallsPush(s[0], rest[0]);
      assert small[1..] == SmallWords(rest[1..]);
      JoinLonger(Small(s[0]), small);
      assert "" + Snake(s[1..]) == Snake(s[1..]);
    }
  }

  lemma JoinLonger(c: char, parts: seq<string>)
    requires parts != []
    ensures Strings.Join([[c] + parts[0]] + parts[1..], '_') == [c] + Strings.Join(parts, '_')
  {
    var longer := [[c] + parts[0]] + parts[1..];
    assert longer[1..] == parts[1..];
    if |parts| > 1 {
      assert longer[0] + ['_'] + Strings.Join(parts[1..], '_')
           == [c] + (parts[0] + ['_'] + Strings.Join(parts[1..], '_'));
    }
  }

  lemma SnakeShort(s: string)
    requires |s| <= 1
    ensures Snake(s) == if s == "" then "" else [Small(s[0])]
  {
    assert SmallWords([s]) == [Smalls(s)];
  }

  /** A column made from a name has no capitals, and starts with the name's first letter. */
  lemma {:induction false} SnakeIsSmall(s: string)
    ensures forall i :: 0 <= i < |Snake(s)| ==> !IsCapital(Snake(s)[i])
    ensures s != "" ==> Snake(s) != "" && Snake(s)[0] == Small(s[0])
    decreases |s|
  {
    if |s| <= 1 {
      SnakeShort(s);
    } else {
      WordsStep(s);
      SnakeIsSmall(s[1..]);
    }
  }

  lemma CamelOfCapital(c: char, tail: string)
    requires IsCapital(c)
    ensures Camel(['_'] + ([Small(c)] + tail)) == [c] + Camel(tail)
  {
    assert (['_'] + ([Small(c)] + tail))[2..] == tail;
  }

  lemma CamelOfOther(c: char, tail: string)
    requires c != '_'
    ensures Camel([c] + tail) == [c] + Camel(tail)
  {
    assert ([c] + tail)[1..] == tail;
  }

  /** The column of a name inside another one: after an underscore if it starts with a capital. */
  function Inner(s: string): string {
    (if s != "" && IsCapital(s[0]) then "_" else "") + Snake(s)
  }

  lemma {:induction false} CamelReadsInner(s: string)
    requires '_' !in s
    ensures Camel(Inner(s)) == s
    decreases |s|
  {
    if s != "" {
      var tail := if |s| > 1 then Inner(s[1..]) else "";
      assert Snake(s) == [Small(s[0])] + tail by {
        if |s| > 1 {
          WordsStep(s);
        } else {
          SnakeShort(s);
        }
      }
      assert Camel(tail) == s[1..] by {
        if |s| > 1 {
          CamelReadsInner(s[1..]);
        }
      }
      InnerStep(s, tail);
    } else {
      SnakeShort(s);
    }
  }

  lemma InnerStep(s: string, tail: string)
    requires s != "" && '_' !in s && Snake(s) == [Small(s[0])] + tail && Camel(tail) == s[1..]
    ensures Camel(Inner(s)) == s
  {
    if IsCapital(s[0]) {
      CamelOfCapital(s[0], tail);
    } else {
      assert "" + Snake(s) == Snake(s);
      CamelOfOther(s[0], tail);
    }
    assert s == [s[0]] + s[1..];
  }

  /** Reading the column of such a field gives the field back. */
  lemma CamelReads(field: string)
    requires IsCamel(field)
    ensures Camel(Snake(field)) == field
  {
    CamelReadsInner(field);
    assert "" + Snake(field) == Snake(field);
  }

  /** Different fields of this kind have different columns. */
  lemma SnakeIsInjective(a: string, b: string)
    requires IsCamel(a) && IsCamel(b) && Snake(a) == Snake(b)
    ensures a == b
  {
    CamelReads(a);
    CamelReads(b);
  }
}

/**
 * The string rules the `hypar new` command applies to a function name:
 * SanitizeFunctionName (underscores become hyphens, letters become lower
 * case) and ClassName (hyphen-separated pieces joined in PascalCase).
 * Casing is ASCII casing; culture-sensitive casing is not modelled.
 */
module FunctionNames {
  import opened Exceptions

  predicate IsUpper(c: char) { 'A' <= c <= 'Z' }

  predicate IsLower(c: char) { 'a' <= c <= 'z' }

  /** char.ToLower on ASCII: upper-case letters map to lower case, everything else is kept. */
  function ToLowerChar(c: char): (r: char)
    ensures !IsUpper(r)
    ensures IsUpper(c) <==> r != c
    ensures IsUpper(c) ==> r as int == c as int + 32
  {
    if IsUpper(c) then (c as int + 32) as char else c
  }

  /** char.ToUpper on ASCII: lower-case letters map to upper case, everything else is kept. */
  function ToUpperChar(c: char): (r: char)
    ensures !IsLower(r)
    ensures IsLower(c) <==> r != c
    ensures IsLower(c) ==> r as int == c as int - 32
    ensures r == '-' <==> c == '-'
  {
    if IsLower(c) then (c as int - 32) as char else c
  }

  /** string.Replace for a one-character pattern and replacement. */
  function Replace(s: string, from: char, to: char): (r: string)
    ensures |r| == |s|
    ensures forall i :: 0 <= i < |s| ==> r[i] == (if s[i] == from then to else s[i])
  {
    if s == [] then [] else [if s[0] == from then to else s[0]] + Replace(s[1..], from, to)
  }

  /** string.ToLower on ASCII. */
  function ToLower(s: string): (r: string)
    ensures |r| == |s|
    ensures forall i :: 0 <= i < |s| ==> r[i] == ToLowerChar(s[i])
  {
    if s == [] then [] else [ToLowerChar(s[0])] + ToLower(s[1..])
  }

  /** The name the function directory and id get: `functionName.Replace("_","-").ToLower()`. */
  function SanitizeFunctionName(functionName: string): (clean: string)
    ensures |clean| == |functionName|
    ensures forall i :: 0 <= i < |functionName| ==>
      clean[i] == (if functionName[i] == '_' then '-' else ToLowerChar(functionName[i]))
    ensures forall i :: 0 <= i < |clean| ==> clean[i] != '_' && !IsUpper(clean[i])
  {
    ToLower(Replace(functionName, '_', '-'))
  }

  /** Sanitising a sanitised name changes nothing. */
  lemma SanitizeIsIdempotent(functionName: string)
    ensures SanitizeFunctionName(SanitizeFunctionName(functionName)) == SanitizeFunctionName(functionName)
  {
    var once := SanitizeFunctionName(functionName);
    var twice := SanitizeFunctionName(once);
    assert forall i :: 0 <= i < |once| ==> twice[i] == once[i];
  }

  /** A name is already clean exactly when it has no underscore and no upper-case letter. */
  lemma SanitizeFixedPoints(functionName: string)
    ensures SanitizeFunctionName(functionName) == functionName <==>
      forall i :: 0 <= i < |functionName| ==> functionName[i] != '_' && !IsUpper(functionName[i])
  {
    var clean := SanitizeFunctionName(functionName);
    if forall i :: 0 <= i < |functionName| ==> functionName[i] != '_' && !IsUpper(functionName[i]) {
      assert forall i :: 0 <= i < |functionName| ==> clean[i] == functionName[i];
    }
  }

  /** The number of occurrences of `c` in `s`. */
  function Count(s: string, c: char): (n: nat)
    ensures n <= |s|
  {
    if s == [] then 0 else (if s[0] == c then 1 else 0) + Count(s[1..], c)
  }

  /** The pieces joined back together, `sep` between each two. */
  function Join(pieces: seq<string>, sep: char): string
    requires |pieces| >= 1
  {
    if |pieces| == 1 then pieces[0] else pieces[0] + [sep] + Join(pieces[1..], sep)
  }

  /** string.Split on one separator character: always one more piece than separators, none containing it. */
  function Split(s: string, sep: char): (pieces: seq<string>)
    ensures |pieces| == Count(s, sep) + 1
    ensures forall k :: 0 <= k < |pieces| ==> sep !in pieces[k]
  {
    if s == [] then [[]]
    else
      var rest := Split(s[1..], sep);
      if s[0] == sep then [[]] + rest
      else [[s[0]] + rest[0]] + rest[1..]
  }

  /** Joining the pieces of a split with the separator gives back the string. */
  lemma {:induction false} SplitJoin(s: string, sep: char)
    ensures Join(Split(s, sep), sep) == s
  {
    if s != [] {
      var rest := Split(s[1..], sep);
      SplitJoin(s[1..], sep);
      if s[0] != sep && |rest| > 1 {
        assert Join(rest, sep) == rest[0] + [sep] + Join(rest[1..], sep);
        assert Split(s, sep)[1..] == rest[1..];
      } else if s[0] != sep {
        assert Split(s, sep) == [[s[0]] + rest[0]];
      } else {
        assert Split(s, sep) == [[]] + rest;
        assert Split(s, sep)[1..] == rest;
      }
    }
  }

  function Sum(pieces: seq<string>): nat {
    if pieces == [] then 0 else |pieces[0]| + Sum(pieces[1..])
  }

  lemma {:induction false} JoinLength(pieces: seq<string>, sep: char)
    requires |pieces| >= 1
    ensures |Join(pieces, sep)| == Sum(pieces) + |pieces| - 1
  {
    if |pieces| > 1 {
      JoinLength(pieces[1..], sep);
    }
  }

  predicate AllNonEmpty(pieces: seq<string>) {
    forall k :: 0 <= k < |pieces| ==> pieces[k] != []
  }

  /** One piece with its first character upper-cased: `char.ToUpper(split[0]) + split.Substring(1)`. */
  function Capitalize(piece: string): (r: string)
    requires piece != []
    ensures |r| == |piece| && r[0] == ToUpperChar(piece[0]) && r[1..] == piece[1..]
    ensures !IsLower(r[0])
  {
    [ToUpperChar(piece[0])] + piece[1..]
  }

  /** The pieces capitalized and concatenated in order. */
  function CapitalizeAll(pieces: seq<string>): (name: string)
    requires AllNonEmpty(pieces)
    ensures |name| == Sum(pieces)
  {
    if pieces == [] then []
    else
      var init, last := pieces[..|pieces| - 1], pieces[|pieces| - 1];
      SumSnoc(init, last);
      assert init + [last] == pieces;
      CapitalizeAll(init) + Capitalize(last)
  }

  /**
   * ClassName: split on '-', append each piece capitalized. An empty piece
   * makes `split[0]` throw IndexOutOfRangeException.
   */
  method ClassName(functionName: string) returns (r: Result<string>)
    ensures var pieces := Split(functionName, '-');
      r == if AllNonEmpty(pieces) then Success(CapitalizeAll(pieces)) else Failure(IndexOutOfRangeException)
  {
    var splits := Split(functionName, '-');
    var sb := "";
    for i := 0 to |splits|
      invariant AllNonEmpty(splits[..i])
      invariant sb == CapitalizeAll(splits[..i])
    {
      var split := splits[i];
      if split == [] {
        return Failure(IndexOutOfRangeException);
      }
      assert splits[..i + 1][..i] == splits[..i];
      sb := sb + ([ToUpperChar(split[0])] + split[1..]);
    }
    assert splits[..|splits|] == splits;
    return Success(sb);
  }

  /** Capitalizing never introduces a hyphen: pieces without '-' concatenate to a name without '-'. */
  lemma {:induction false} CapitalizeAllNoHyphen(pieces: seq<string>)
    requires AllNonEmpty(pieces)
    requires forall k :: 0 <= k < |pieces| ==> '-' !in pieces[k]
    ensures '-' !in CapitalizeAll(pieces)
  {
    if pieces != [] {
      var init := pieces[..|pieces| - 1];
      CapitalizeAllNoHyphen(init);
      assert '-' !in pieces[|pieces| - 1];
      assert '-' !in Capitalize(pieces[|pieces| - 1]);
    }
  }

  lemma {:induction false} SumSnoc(pieces: seq<string>, p: string)
    ensures Sum(pieces + [p]) == Sum(pieces) + |p|
  {
    if pieces != [] {
      assert (pieces + [p])[1..] == pieces[1..] + [p];
      SumSnoc(pieces[1..], p);
    }
  }

  /** A successful ClassName result has no hyphen. */
  lemma ClassNameHasNoHyphen(functionName: string)
    requires AllNonEmpty(Split(functionName, '-'))
    ensures '-' !in CapitalizeAll(Split(functionName, '-'))
  {
    CapitalizeAllNoHyphen(Split(functionName, '-'));
  }

  /** A successful ClassName result is as long as the name without its hyphens. */
  lemma ClassNameLength(functionName: string)
    requires AllNonEmpty(Split(functionName, '-'))
    ensures |CapitalizeAll(Split(functionName, '-'))| == |functionName| - Count(functionName, '-')
  {
    var pieces := Split(functionName, '-');
    JoinLength(pieces, '-');
    SplitJoin(functionName, '-');
  }

  /**
   * A name ClassName accepts: non-empty, neither starting nor ending with a
   * hyphen, and without two hyphens in a row.
   */
  predicate WellSeparated(s: string) {
    && s != []
    && s[0] != '-'
    && s[|s| - 1] != '-'
    && NoDoubleHyphen(s)
  }

  predicate NoDoubleHyphen(s: string) {
    forall i :: 0 <= i < |s| - 1 ==> !(s[i] == '-' && s[i + 1] == '-')
  }

  /** Dropping a first character that does not start a double hyphen keeps NoDoubleHyphen either way. */
  lemma NoDoubleHyphenTail(s: string)
    requires |s| >= 2 && !(s[0] == '-' && s[1] == '-')
    ensures NoDoubleHyphen(s) <==> NoDoubleHyphen(s[1..])
  {
    var t := s[1..];
    if NoDoubleHyphen(t) {
      forall i | 0 <= i < |s| - 1 ensures !(s[i] == '-' && s[i + 1] == '-') {
        if i >= 1 { assert s[i] == t[i - 1] && s[i + 1] == t[i]; }
      }
    }
    if NoDoubleHyphen(s) {
      forall i | 0 <= i < |t| - 1 ensures !(t[i] == '-' && t[i + 1] == '-') {
        assert t[i] == s[i + 1] && t[i + 1] == s[i + 2];
      }
    }
  }

  /** ClassName succeeds exactly on well-separated names. */
  lemma {:induction false} ClassNameSucceedsIff(s: string)
    ensures AllNonEmpty(Split(s, '-')) <==> WellSeparated(s)
    decreases |s|
  {
    var pieces := Split(s, '-');
    if s == [] {
      assert pieces[0] == [];
    } else if s[0] == '-' {
      assert pieces[0] == [];
    } else if |s| == 1 {
      var rest := Split(s[1..], '-');
      assert s[1..] == [] && rest == [[]];
      assert pieces == [[s[0]] + rest[0]] + rest[1..];
      assert pieces[0] != [] && |pieces| == 1;
    } else {
      var t := s[1..];
      var rest := Split(t, '-');
      assert pieces == [[s[0]] + rest[0]] + rest[1..];
      if t[0] == '-' {
        var u := t[1..];
        assert rest == [[]] + Split(u, '-');
        ClassNameSucceedsIff(u);
        assert AllNonEmpty(pieces) <==> AllNonEmpty(Split(u, '-')) by {
          assert pieces[1..] == Split(u, '-');
          assert forall k :: 1 <= k < |pieces| ==> pieces[k] == Split(u, '-')[k - 1];
        }
        if u == [] {
          assert s[|s| - 1] == '-';
        } else {
          assert s[|s| - 1] == u[|u| - 1];
          assert s[1] == '-';
          if u[0] == '-' {
            assert s[1] == '-' && s[2] == '-';
          } else {
            NoDoubleHyphenTail(s);
            NoDoubleHyphenTail(t);
          }
        }
      } else {
        ClassNameSucceedsIff(t);
        assert AllNonEmpty(pieces) <==> AllNonEmpty(rest) by {
          assert rest[0] != [];
          assert forall k :: 1 <= k < |pieces| ==> pieces[k] == rest[k];
        }
        NoDoubleHyphenTail(s);
      }
    }
  }
}

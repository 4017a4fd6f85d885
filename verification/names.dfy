/** Component-name derivation and the trailing-semicolon strip of
    `wrapWithComponent` (src/modules/jsx.ts). */
module Names {
  import opened Strings

  /** `toUpperCase` on one character, restricted to ASCII letters. */
  function UpperAscii(c: char): (u: char)
    ensures 'a' <= c <= 'z' ==> 'A' <= u <= 'Z' && u as int == c as int - 32
    ensures !('a' <= c <= 'z') ==> u == c
  {
    if 'a' <= c <= 'z' then (c as int - 32) as char else c
  }

  /** `capitalizeFirstLetter`: the first character upper-cased, the rest unchanged;
      `"".charAt(0)` is "" so the empty string stays empty. */
  function Capitalize(s: string): (r: string)
    ensures |r| == |s|
    ensures |s| > 0 ==> r[1..] == s[1..]
    ensures |s| > 0 ==> r[0] == UpperAscii(s[0])
  {
    if |s| == 0 then "" else [UpperAscii(s[0])] + s[1..]
  }

  /** `.map(capitalizeFirstLetter)` */
  function CapitalizeAll(parts: seq<string>): (r: seq<string>)
    ensures |r| == |parts|
    ensures forall i :: 0 <= i < |r| ==> r[i] == Capitalize(parts[i])
  {
    if |parts| == 0 then [] else [Capitalize(parts[0])] + CapitalizeAll(parts[1..])
  }

  lemma {:induction false} CapitalizeAllMeasure(parts: seq<string>)
    ensures TotalLength(CapitalizeAll(parts)) == TotalLength(parts)
    decreases |parts|
  {
    if |parts| > 0 {
      CapitalizeAllMeasure(parts[1..]);
      assert CapitalizeAll(parts)[1..] == CapitalizeAll(parts[1..]);
    }
  }

  /** `produceComponentNameFrom`, starting from the base name with its
      directory and extension already removed: split on '-', capitalise each
      segment, concatenate. The name has no hyphen, and only the hyphens are
      dropped from the base name. */
  function ComponentName(baseName: string): (name: string)
    ensures '-' !in name
    ensures |name| == |baseName| - Count(baseName, '-')
  {
    var segments := Split(baseName, '-');
    var capitalized := CapitalizeAll(segments);
    forall i | 0 <= i < |capitalized|
      ensures '-' !in capitalized[i]
    {
      assert '-' !in segments[i];
    }
    ConcatMeasure(capitalized, '-');
    JoinMeasure(segments, '-');
    CapitalizeAllMeasure(segments);
    Join(capitalized, "")
  }

  /** A base name made of hyphen-joined segments is named by the segments
      capitalised and concatenated, in order. */
  lemma ComponentNameOfSegments(segments: seq<string>)
    requires |segments| >= 1
    requires forall i :: 0 <= i < |segments| ==> '-' !in segments[i]
    ensures ComponentName(Join(segments, "-")) == Join(CapitalizeAll(segments), "")
  {
    SplitJoin(segments, '-');
  }

  lemma ComponentNameOfSource()
    ensures ComponentName("source") == "Source"
  {
    SplitWithoutSeparator("source", '-');
    assert UpperAscii('s') == 'S';
    assert Capitalize("source") == "Source";
    assert CapitalizeAll(["source"]) == ["Source"];
  }

  lemma ComponentNameOfUserCard()
    ensures ComponentName("user-card") == "UserCard"
  {
    var segments := ["user", "card"];
    assert segments[1..] == ["card"];
    assert Join(segments, "-") == "user" + "-" + "card" == "user-card";
    ComponentNameOfSegments(segments);
    assert UpperAscii('u') == 'U' && UpperAscii('c') == 'C';
    assert Capitalize("user") == "User" && Capitalize("card") == "Card";
    var capitalized := CapitalizeAll(segments);
    assert capitalized == ["User", "Card"];
    assert capitalized[1..] == ["Card"];
    assert Join(capitalized, "") == "User" + "" + "Card" == "UserCard";
  }

  /** `s.lastIndexOf(c)`: the index of the last `c`, or -1 when there is none. */
  function LastIndexOf(s: string, c: char): (k: int)
    ensures -1 <= k < |s|
    ensures k == -1 <==> c !in s
    ensures 0 <= k ==> s[k] == c && c !in s[k + 1..]
  {
    if |s| == 0 then -1
    else if s[|s| - 1] == c then |s| - 1
    else
      var init := s[..|s| - 1];
      var k := LastIndexOf(init, c);
      assert s == init + [s[|s| - 1]];
      assert c in s <==> c in init;
      assert 0 <= k ==> s[k + 1..] == init[k + 1..] + [s[|s| - 1]];
      k
  }

  function Clamp(x: int, n: nat): (r: nat)
    ensures r <= n
  {
    if x < 0 then 0 else if x > n then n else x
  }

  /** `s.slice(0, end)`: a negative end counts from the end of the string. */
  function SliceTo(s: string, end: int): (r: string)
    ensures |r| <= |s| && r == s[..|r|]
    ensures 0 <= end <= |s| ==> |r| == end
    ensures end < 0 ==> |r| == if |s| + end < 0 then 0 else |s| + end
    ensures end > |s| ==> r == s
  {
    s[..Clamp(if end < 0 then |s| + end else end, |s|)]
  }

  /** `s.slice(start)`: a negative start counts from the end of the string. */
  function SliceFrom(s: string, start: int): (r: string)
    ensures |r| <= |s| && r == s[|s| - |r|..]
    ensures 0 <= start <= |s| ==> |r| == |s| - start
    ensures start < 0 ==> |r| == if -start > |s| then |s| else -start
    ensures start > |s| ==> r == ""
  {
    s[Clamp(if start < 0 then |s| + start else start, |s|)..]
  }

  /** The strip applied to the printed code (jsx.ts:128-129): remove the last
      ';'. Without any ';', `lastIndexOf` gives -1 and the two slices are the
      text minus its last character followed by the whole text. */
  function StripLastSemicolon(code: string): (r: string)
    ensures ';' in code ==> |r| == |code| - 1 && Count(r, ';') == Count(code, ';') - 1
    ensures ';' in code ==> Removes(code, LastIndexOf(code, ';'), r)
    ensures ';' !in code && |code| > 0 ==> r == code[..|code| - 1] + code
    ensures code == "" ==> r == ""
  {
    var k := LastIndexOf(code, ';');
    StripCases(code, k);
    SliceTo(code, k) + SliceFrom(code, k + 1)
  }

  lemma StripCases(code: string, k: int)
    requires k == LastIndexOf(code, ';')
    ensures var r := SliceTo(code, k) + SliceFrom(code, k + 1);
      && (k >= 0 ==> Removes(code, k, r) && Count(r, ';') == Count(code, ';') - 1)
      && (k < 0 && |code| > 0 ==> r == code[..|code| - 1] + code)
      && (code == "" ==> r == "")
  {
    var r := SliceTo(code, k) + SliceFrom(code, k + 1);
    if k >= 0 {
      assert r == code[..k] + code[k + 1..];
      RemovedAt(code, k, r);
    } else {
      assert SliceFrom(code, k + 1) == code;
    }
  }

  /** `r` is `code` without its character at `k`. */
  predicate Removes(code: string, k: int, r: string)
  {
    0 <= k < |code| && |r| == |code| - 1 && r[..k] == code[..k] && r[k..] == code[k + 1..]
  }

  lemma RemovedAt(code: string, k: nat, r: string)
    requires k < |code| && code[k] == ';'
    requires r == code[..k] + code[k + 1..]
    ensures Removes(code, k, r)
    ensures Count(r, ';') == Count(code, ';') - 1
  {
    var a, b := code[..k], code[k + 1..];
    var semiB := ";" + b;
    assert code == a + semiB;
    assert r[..k] == a && r[k..] == b;
    assert semiB[1..] == b;
    assert Count(semiB, ';') == 1 + Count(b, ';');
    CountAppend(a, semiB, ';');
    CountAppend(a, b, ';');
  }

}

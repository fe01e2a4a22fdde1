/** The Python string operations the extraction script relies on:
    `str.find`, `str.rfind`, slicing with a possibly negative bound,
    `os.path.basename` (POSIX) and joining with a separator. */
module PyText {

  /** `s.find(c)`: the index of the first `c` in `s`, or -1 when `s` has none. */
  function Find(s: string, c: char): (r: int)
    ensures r == -1 <==> c !in s
    ensures r != -1 ==> 0 <= r < |s| && s[r] == c && c !in s[..r]
  {
    if s == [] then -1
    else if s[0] == c then 0
    else
      var k := Find(s[1..], c);
      assert s == [s[0]] + s[1..];
      if k == -1 then -1
      else
        assert s[..k + 1] == [s[0]] + s[1..][..k];
        k + 1
  }

  /** The first occurrence is determined by the character and the text
      before it. */
  lemma FindAt(s: string, c: char, i: nat)
    requires i < |s| && s[i] == c && c !in s[..i]
    ensures Find(s, c) == i
  {
    assert s[i] in s;
  }

  /** `s.rfind(c)`: the index of the last `c` in `s`, or -1 when `s` has none. */
  function RFind(s: string, c: char): (r: int)
    ensures r == -1 <==> c !in s
    ensures r != -1 ==> 0 <= r < |s| && s[r] == c && c !in s[r + 1..]
  {
    if s == [] then -1
    else if s[|s| - 1] == c then |s| - 1
    else
      var k := RFind(s[..|s| - 1], c);
      assert s == s[..|s| - 1] + [s[|s| - 1]];
      assert k != -1 ==> s[k + 1..] == s[..|s| - 1][k + 1..] + [s[|s| - 1]];
      k
  }

  /** The last occurrence is determined by the character and the text after
      it. */
  lemma RFindAt(s: string, c: char, i: nat)
    requires i < |s| && s[i] == c && c !in s[i + 1..]
    ensures RFind(s, c) == i
  {
    assert s[i] in s;
  }

  /** The position a Python slice bound `i` stands for in `s`: a negative
      bound counts from the end, and both ends are clamped to `0..|s|`. */
  function SliceIndex(s: string, i: int): (k: nat)
    ensures k <= |s|
  {
    if i < 0 then (if |s| + i < 0 then 0 else |s| + i)
    else if i > |s| then |s|
    else i
  }

  /** `s[:i]` */
  function Prefix(s: string, i: int): string
  {
    s[..SliceIndex(s, i)]
  }

  /** `s[i:]` */
  function Suffix(s: string, i: int): string
  {
    s[SliceIndex(s, i)..]
  }

  /** `os.path.basename(p)` on POSIX: everything after the last `/`. */
  function Basename(p: string): string
  {
    Suffix(p, RFind(p, '/') + 1)
  }

  /** A character followed by text without it is the last occurrence. */
  lemma {:induction false} RFindBefore(s: string, c: char, t: string)
    requires c !in t
    ensures RFind(s + [c] + t, c) == |s|
  {
    var u := s + [c] + t;
    assert u[|s|] == c;
    assert u[|s| + 1..] == t;
    RFindAt(u, c, |s|);
  }

  /** Splitting `stem.ext` at its last `.`, for an extension without `.`. */
  lemma SplitAtLastDot(stem: string, ext: string)
    requires '.' !in ext
    ensures RFind(stem + "." + ext, '.') == |stem|
    ensures Prefix(stem + "." + ext, RFind(stem + "." + ext, '.')) == stem
    ensures Suffix(stem + "." + ext, RFind(stem + "." + ext, '.')) == "." + ext
  {
    var name := stem + "." + ext;
    assert name == stem + ['.'] + ext;
    RFindBefore(stem, '.', ext);
    assert SliceIndex(name, |stem|) == |stem|;
    assert name[..|stem|] == stem;
    assert name[|stem|..] == "." + ext;
  }

  /** Splitting `date:rest` at its first `:`, for a date without `:`. */
  lemma SplitAtFirstColon(date: string, rest: string)
    requires ':' !in date
    ensures Prefix(date + ":" + rest, Find(date + ":" + rest, ':')) == date
  {
    var key := date + ":" + rest;
    assert key[..|date|] == date;
    FindAt(key, ':', |date|);
  }

  /** `sep.join(parts)` */
  function Join(parts: seq<string>, sep: string): string
  {
    if |parts| == 0 then ""
    else if |parts| == 1 then parts[0]
    else parts[0] + sep + Join(parts[1..], sep)
  }

  /** A path is its directory part (empty, or ending in `/`) followed by a
      `/`-free name; `Basename` recovers that name. */
  lemma BasenameOfPath(dir: string, name: string)
    requires dir == [] || dir[|dir| - 1] == '/'
    requires '/' !in name
    ensures Basename(dir + name) == name
  {
    var p := dir + name;
    var r := RFind(p, '/');
    if dir == [] {
      assert p == name;
    } else {
      assert p[|dir| - 1] == '/';
      assert p[|dir|..] == name;
      assert r == |dir| - 1;
    }
  }

  /** Joining one more part adds the separator only between parts: there is
      never a leading or trailing separator. */
  lemma {:induction false} JoinSnoc(parts: seq<string>, p: string, sep: string)
    ensures Join(parts + [p], sep) == if parts == [] then p else Join(parts, sep) + sep + p
  {
    if |parts| == 0 {
      assert parts + [p] == [p];
    } else if |parts| == 1 {
      assert (parts + [p])[1..] == [p];
    } else {
      assert (parts + [p])[1..] == parts[1..] + [p];
      JoinSnoc(parts[1..], p, sep);
    }
  }
}

/** The JavaScript string operations the models share. */
module JsText {
  /** What `trim` removes. */
  predicate IsWhite(c: char) {
    c in "\t\n\r \U{000b}\U{000c}\U{00a0}\U{1680}\U{2028}\U{2029}\U{202f}\U{205f}\U{3000}\U{feff}" ||
    '\U{2000}' <= c <= '\U{200a}'
  }

  function TrimStart(s: string): string {
    if s != "" && IsWhite(s[0]) then TrimStart(s[1..]) else s
  }

  function TrimEnd(s: string): (t: string)
    ensures t <= s
    ensures s != "" && !IsWhite(s[0]) ==> t != ""
  {
    if s != "" && IsWhite(s[|s| - 1]) then TrimEnd(s[..|s| - 1]) else s
  }

  function Trim(s: string): string {
    TrimEnd(TrimStart(s))
  }

  /** The pieces between the separators, empty ones included: never an empty list. */
  function Split(s: string, separators: set<char>): (parts: seq<string>)
    ensures parts != []
  {
    if s == "" then [""]
    else
      var rest := Split(s[1..], separators);
      if s[0] in separators then [""] + rest else [[s[0]] + rest[0]] + rest[1..]
  }

  function Join(parts: seq<string>, separator: char): string {
    if |parts| == 0 then ""
    else if |parts| == 1 then parts[0]
    else parts[0] + [separator] + Join(parts[1..], separator)
  }

  /** `n` copies of the character. */
  function Copies(c: char, n: nat): (s: string)
    ensures |s| == n && forall i :: 0 <= i < n ==> s[i] == c
  {
    seq(n, _ => c)
  }

  predicate AllWhite(s: string) {
    forall c :: c in s ==> IsWhite(c)
  }

  /** Exactly these code points are white. */
  lemma WhiteCodes(c: char)
    ensures IsWhite(c) <==>
              c as int in {9, 10, 11, 12, 13, 32, 160, 5760, 8192, 8193, 8194, 8195, 8196, 8197, 8198, 8199, 8200, 8201,
                           8202, 8232, 8233, 8239, 8287, 12288, 65279}
  {
    if c as int in {9, 10, 11, 12, 13, 32, 160, 5760, 8232, 8233, 8239, 8287, 12288, 65279} {
      WhiteInTheList(c);
    }
  }

  lemma WhiteInTheList(c: char)
    requires c as int in {9, 10, 11, 12, 13, 32, 160, 5760, 8232, 8233, 8239, 8287, 12288, 65279}
    ensures IsWhite(c)
  {
    var list := "\t\n\r \U{000b}\U{000c}\U{00a0}\U{1680}\U{2028}\U{2029}\U{202f}\U{205f}\U{3000}\U{feff}";
    assert list[0] as int == 9 && list[1] as int == 10 && list[2] as int == 13 && list[3] as int == 32;
    assert list[4] as int == 11 && list[5] as int == 12 && list[6] as int == 160 && list[7] as int == 5760;
    assert list[8] as int == 8232 && list[9] as int == 8233 && list[10] as int == 8239 && list[11] as int == 8287;
    assert list[12] as int == 12288 && list[13] as int == 65279;
  }

  /** `t` is what is left of `s` without the white characters at either end. */
  ghost predicate IsTrimmed(s: string, t: string) {
    && (exists a, b :: s == a + t + b && AllWhite(a) && AllWhite(b))
    && (t != "" ==> !IsWhite(t[0]) && !IsWhite(t[|t| - 1]))
  }

  lemma {:induction false} TrimStartDrops(a: string, x: string)
    requires AllWhite(a) && (x != "" ==> !IsWhite(x[0]))
    ensures TrimStart(a + x) == x
  {
    hide IsWhite;
    if a == "" {
      assert a + x == x;
    } else {
      assert (a + x)[1..] == a[1..] + x && (a + x)[0] == a[0] && a[0] in a;
      TrimStartDrops(a[1..], x);
    }
  }

  lemma {:induction false} TrimEndDrops(x: string, b: string)
    requires AllWhite(b) && (x != "" ==> !IsWhite(x[|x| - 1]))
    ensures TrimEnd(x + b) == x
  {
    hide IsWhite;
    if b == "" {
      assert x + b == x;
    } else {
      var s := x + b;
      assert s[..|s| - 1] == x + b[..|b| - 1] && s[|s| - 1] == b[|b| - 1] && b[|b| - 1] in b;
      TrimEndDrops(x, b[..|b| - 1]);
    }
  }

  /** Where the text that is not white at the front begins. */
  lemma {:induction false} FrontOf(s: string) returns (a: string, x: string)
    ensures s == a + x && AllWhite(a) && (x != "" ==> !IsWhite(x[0]))
  {
    hide IsWhite;
    if s != "" && IsWhite(s[0]) {
      a, x := FrontOf(s[1..]);
      a := [s[0]] + a;
    } else {
      a, x := "", s;
    }
  }

  lemma {:induction false} BackOf(s: string) returns (x: string, b: string)
    ensures s == x + b && AllWhite(b) && (x != "" ==> !IsWhite(x[|x| - 1]))
  {
    hide IsWhite;
    if s != "" && IsWhite(s[|s| - 1]) {
      x, b := BackOf(s[..|s| - 1]);
      b := b + [s[|s| - 1]];
    } else {
      x, b := s, "";
    }
  }

  /** `Trim` gives what is left without the white characters at either end, and nothing else is that. */
  lemma TrimIsTheTrim(s: string, t: string)
    ensures IsTrimmed(s, t) <==> t == Trim(s)
  {
    hide IsWhite;
    if IsTrimmed(s, t) {
      var a, b :| s == a + t + b && AllWhite(a) && AllWhite(b);
      TrimOf(a, t, b);
    }
    var a, x := FrontOf(s);
    var y, b := BackOf(x);
    assert s == a + y + b;
    if y != "" { assert y[0] == x[0]; }
    TrimOf(a, y, b);
  }

  lemma TrimOf(a: string, t: string, b: string)
    requires AllWhite(a) && AllWhite(b) && (t != "" ==> !IsWhite(t[0]) && !IsWhite(t[|t| - 1]))
    ensures Trim(a + t + b) == t
  {
    hide IsWhite;
    if t == "" {
      assert a + t + b == (a + b) + "";
      TrimStartDrops(a + b, "");
    } else {
      assert a + t + b == a + (t + b) && (t + b)[0] == t[0];
      TrimStartDrops(a, t + b);
      TrimEndDrops(t, b);
    }
  }

  predicate EndsWith(s: string, suffix: string) {
    |suffix| <= |s| && s[|s| - |suffix|..] == suffix
  }
}

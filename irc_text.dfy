/** The string operations the user list applies to nicknames: Python's
    `str.lower`, `str.strip('+%@')` and `str.split(' ')`, and the
    `nick!user@host` mask that irc3 calls an `IrcString`. */
module IrcText {

  /** `str.lower` on one character, restricted to ASCII letters. */
  function LowerChar(c: char): char
  {
    if 'A' <= c <= 'Z' then (c as int + 32) as char else c
  }

  predicate IsUpper(c: char)
  {
    'A' <= c <= 'Z'
  }

  /** `str.lower`, restricted to ASCII: the string with every character lowered. */
  function Lower(s: string): (r: string)
    ensures |r| == |s|
  {
    if s == [] then [] else [LowerChar(s[0])] + Lower(s[1..])
  }

  /** `Lower` replaces every ASCII capital by its small letter, touches no
      other character, and leaves no capital behind. */
  lemma {:induction false} LowerChars(s: string)
    ensures forall i :: 0 <= i < |s| ==> Lower(s)[i] == LowerChar(s[i]) && !IsUpper(Lower(s)[i])
  {
    if s != [] {
      LowerChars(s[1..]);
      assert forall i :: 1 <= i < |s| ==> Lower(s)[i] == Lower(s[1..])[i - 1];
    }
  }

  /** Lowering a lowered nickname changes nothing. */
  lemma LowerIdempotent(s: string)
    ensures Lower(Lower(s)) == Lower(s)
  {
    LowerChars(s);
    LowerChars(Lower(s));
    var once, twice := Lower(s), Lower(Lower(s));
    assert forall i :: 0 <= i < |s| ==> twice[i] == once[i];
  }

  /** A string without capitals is its own lower form. */
  lemma LowerOfLowercase(s: string)
    requires forall i :: 0 <= i < |s| ==> !IsUpper(s[i])
    ensures Lower(s) == s
  {
    LowerChars(s);
    var r := Lower(s);
    assert forall i :: 0 <= i < |s| ==> r[i] == s[i];
  }

  /** The prefix characters a names reply puts before a nickname. */
  predicate IsMarker(c: char)
  {
    c == '+' || c == '%' || c == '@'
  }

  predicate MarkersOnly(t: string)
  {
    forall k :: 0 <= k < |t| ==> IsMarker(t[k])
  }

  /** `str.lstrip('+%@')`. */
  function StripLeft(s: string): (r: string)
    ensures |r| <= |s|
  {
    if s != [] && IsMarker(s[0]) then StripLeft(s[1..]) else s
  }

  /** `str.rstrip('+%@')`. */
  function StripRight(s: string): (r: string)
    ensures |r| <= |s|
  {
    if s != [] && IsMarker(s[|s| - 1]) then StripRight(s[..|s| - 1]) else s
  }

  /** `str.strip('+%@')`: markers go from BOTH ends of the token. */
  function Strip(s: string): (r: string)
    ensures |r| <= |s|
  {
    StripRight(StripLeft(s))
  }

  /** `StripLeft` removes the longest marker-only prefix: what it drops is
      all markers and what it keeps does not start with one. */
  lemma {:induction false} StripLeftRemovesPrefix(s: string)
    ensures var r := StripLeft(s);
      && r == s[|s| - |r|..]
      && MarkersOnly(s[..|s| - |r|])
      && (r == [] || !IsMarker(r[0]))
  {
    if s != [] && IsMarker(s[0]) {
      StripLeftRemovesPrefix(s[1..]);
    }
  }

  /** `StripRight` removes the longest marker-only suffix. */
  lemma {:induction false} StripRightRemovesSuffix(s: string)
    ensures var r := StripRight(s);
      && r == s[..|r|]
      && MarkersOnly(s[|r|..])
      && (r == [] || !IsMarker(r[|r| - 1]))
  {
    if s != [] && IsMarker(s[|s| - 1]) {
      StripRightRemovesSuffix(s[..|s| - 1]);
    }
  }

  /** What `Strip` leaves is what lies between a marker-only prefix and a
      marker-only suffix, and it neither starts nor ends with a marker (which
      makes it unique). */
  lemma StripSpec(s: string)
    ensures var r := Strip(s);
      && (exists i, j :: 0 <= i <= j <= |s| && r == s[i..j] && MarkersOnly(s[..i]) && MarkersOnly(s[j..]))
      && (r == [] || (!IsMarker(r[0]) && !IsMarker(r[|r| - 1])))
  {
    var l := StripLeft(s);
    var r := StripRight(l);
    StripLeftRemovesPrefix(s);
    StripRightRemovesSuffix(l);
    var i := |s| - |l|;
    assert r == s[i..i + |r|];
    assert s[i + |r|..] == l[|r|..];
    if r != [] {
      assert r[0] == l[0];
    }
  }

  /** A token that neither starts nor ends with a marker is left as it is. */
  lemma StripPlain(t: string)
    requires t == [] || (!IsMarker(t[0]) && !IsMarker(t[|t| - 1]))
    ensures Strip(t) == t
  {
  }

  /** One leading marker before a plain nickname is removed. */
  lemma StripMarked(m: char, t: string)
    requires IsMarker(m)
    requires t != [] && !IsMarker(t[0]) && !IsMarker(t[|t| - 1])
    ensures Strip([m] + t) == t
  {
    assert ([m] + t)[1..] == t;
    assert StripLeft([m] + t) == StripLeft(t) == t;
    assert StripRight(t) == t;
  }

  /** Stripping a stripped token changes nothing. */
  lemma StripIdempotent(s: string)
    ensures Strip(Strip(s)) == Strip(s)
  {
    StripSpec(s);
  }

  /** `str.split(' ')`: every single space separates two fields, so two
      spaces in a row give an empty field and the empty string gives [""]. */
  function Split(s: string): (r: seq<string>)
    ensures |r| >= 1
  {
    if s == [] then [[]]
    else
      var rest := Split(s[1..]);
      if s[0] == ' ' then [[]] + rest else [[s[0]] + rest[0]] + rest[1..]
  }

  /** No field of a split contains a space. */
  lemma {:induction false} SplitFieldsHaveNoSpace(s: string)
    ensures forall t :: t in Split(s) ==> ' ' !in t
  {
    if s != [] {
      SplitFieldsHaveNoSpace(s[1..]);
    }
  }

  /** `' '.join(fields)`. */
  function JoinFields(fields: seq<string>): string
    requires |fields| >= 1
  {
    if |fields| == 1 then fields[0] else fields[0] + " " + JoinFields(fields[1..])
  }

  /** Splitting loses nothing: joining the fields with spaces gives the
      original text back. */
  lemma {:induction false} JoinSplit(s: string)
    ensures JoinFields(Split(s)) == s
  {
    if s != [] {
      var rest := Split(s[1..]);
      JoinSplit(s[1..]);
      if s[0] != ' ' && |rest| > 1 {
        assert JoinFields(rest) == rest[0] + " " + JoinFields(rest[1..]);
        assert [[s[0]] + rest[0]] + rest[1..] == Split(s);
        assert JoinFields(Split(s)) == ([s[0]] + rest[0]) + " " + JoinFields(rest[1..]);
      }
    }
  }

  /** Splitting a space-free prefix: it is glued onto the first field. */
  lemma {:induction false} SplitPrefix(t: string, rest: string)
    requires ' ' !in t
    ensures Split(t + rest) == [t + Split(rest)[0]] + Split(rest)[1..]
  {
    if t != [] {
      assert (t + rest)[1..] == t[1..] + rest;
      SplitPrefix(t[1..], rest);
      var head := Split(t[1..] + rest);
      assert t[0] != ' ' && (t + rest)[0] == t[0];
      assert Split(t + rest) == [[t[0]] + head[0]] + head[1..];
      assert [t[0]] + (t[1..] + Split(rest)[0]) == t + Split(rest)[0];
    } else {
      assert t + rest == rest && t + Split(rest)[0] == Split(rest)[0];
    }
  }

  /** Joining space-free fields and splitting again gives the fields back. */
  lemma {:induction false} SplitJoin(fields: seq<string>)
    requires |fields| >= 1
    requires forall t :: t in fields ==> ' ' !in t
    ensures Split(JoinFields(fields)) == fields
  {
    if |fields| == 1 {
      SplitPrefix(fields[0], []);
      assert fields[0] + [] == fields[0];
    } else {
      var tail := JoinFields(fields[1..]);
      SplitJoin(fields[1..]);
      assert fields[0] + " " + tail == fields[0] + (" " + tail);
      SplitPrefix(fields[0], " " + tail);
      assert (" " + tail)[1..] == tail;
      assert Split(" " + tail) == [[]] + fields[1..];
      assert fields[0] + [] == fields[0];
      assert fields == [fields[0]] + fields[1..];
    }
  }

  /** A user mask `nick!user@host` (irc3's `IrcString` for a user prefix). */
  datatype Mask = Mask(nick: string, user: string, host: string)
  {
    /** `IrcString.lnick`: the nickname lowered. */
    function LNick(): string
    {
      Lower(nick)
    }

    /** The text of the mask, `nick + '!' + user + '@' + host`. */
    function Text(): string
    {
      nick + "!" + user + "@" + host
    }

    /** A nickname has no `!` and a user name has no `@`. */
    predicate WellFormed()
    {
      '!' !in nick && '@' !in user
    }
  }

  /** The position of the first `c` in `s`, or `|s|` when there is none. */
  function IndexOf(s: string, c: char): (i: nat)
    ensures i <= |s|
    ensures c !in s[..i]
    ensures i < |s| ==> s[i] == c
  {
    if s == [] then 0
    else if s[0] == c then 0
    else 1 + IndexOf(s[1..], c)
  }

  /** Cutting `a + [c] + b` at its first `c` gives back `a` and `b` when `a`
      holds no `c`. */
  lemma {:induction false} SplitAtFirst(a: string, c: char, b: string)
    requires c !in a
    ensures var t := a + [c] + b;
      IndexOf(t, c) == |a| && t[..|a|] == a && t[|a| + 1..] == b
  {
    var t := a + [c] + b;
    if a != [] {
      assert t[1..] == a[1..] + [c] + b;
      SplitAtFirst(a[1..], c, b);
    }
    assert t[..|a|] == a && t[|a| + 1..] == b;
  }

  /** The parts read back from a mask text: the nickname up to the first
      `!`, then the user up to the next `@`, then the host. */
  function ReadMask(t: string): Mask
  {
    var i := IndexOf(t, '!');
    var rest := if i < |t| then t[i + 1..] else [];
    var j := IndexOf(rest, '@');
    Mask(t[..i], rest[..j], if j < |rest| then rest[j + 1..] else [])
  }

  /** The text `nick!user@host` of a well-formed mask gives its three parts
      back. */
  lemma ReadText(m: Mask)
    requires m.WellFormed()
    ensures ReadMask(m.Text()) == m
  {
    var rest := m.user + ['@'] + m.host;
    assert m.Text() == m.nick + ['!'] + rest;
    SplitAtFirst(m.nick, '!', rest);
    SplitAtFirst(m.user, '@', m.host);
  }

  /** So the text of a well-formed mask determines its parts: storing the
      triple instead of the text identifies the same users. */
  lemma TextInjective(m1: Mask, m2: Mask)
    requires m1.WellFormed() && m2.WellFormed()
    requires m1.Text() == m2.Text()
    ensures m1 == m2
  {
    ReadText(m1);
    ReadText(m2);
  }
}

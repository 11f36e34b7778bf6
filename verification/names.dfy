/** Display names: `name.split(' ')`, its inverse `join`, and the avatar
    initials `name.split(' ').map(n => n[0]).join('')` that six components
    repeat. Indexing an empty piece gives `undefined`, which `join` writes as
    nothing, so empty pieces contribute no initial. */
module Names {

  /** `s.split(sep)`: the pieces between separators; always at least one. */
  function Split(s: string, sep: char): (r: seq<string>)
    ensures |r| >= 1
    ensures forall i :: 0 <= i < |r| ==> sep !in r[i]
  {
    if s == [] then [""]
    else
      var rest := Split(s[1..], sep);
      if s[0] == sep then [""] + rest
      else [[s[0]] + rest[0]] + rest[1..]
  }

  /** `parts.join(sep)`. */
  function Join(parts: seq<string>, sep: char): string {
    if parts == [] then ""
    else if |parts| == 1 then parts[0]
    else parts[0] + [sep] + Join(parts[1..], sep)
  }

  /** Joining the pieces with the separator gives back the original string. */
  lemma {:induction false} JoinSplit(s: string, sep: char)
    ensures Join(Split(s, sep), sep) == s
  {
    if s != [] {
      JoinSplit(s[1..], sep);
      var rest := Split(s[1..], sep);
      if s[0] != sep {
        if |rest| > 1 {
          assert ([[s[0]] + rest[0]] + rest[1..])[1..] == rest[1..];
        }
      }
    }
  }

  /** Splitting a string that starts with a separator-free piece `p`. */
  lemma {:induction false} SplitPrefix(p: string, tail: string, sep: char)
    requires sep !in p
    ensures Split(p + tail, sep) == [p + Split(tail, sep)[0]] + Split(tail, sep)[1..]
  {
    if p != [] {
      assert (p + tail)[1..] == p[1..] + tail;
      SplitPrefix(p[1..], tail, sep);
      assert [p[0]] + (p[1..] + Split(tail, sep)[0]) == p + Split(tail, sep)[0];
    } else {
      var r := Split(tail, sep);
      assert p + tail == tail;
      assert p + r[0] == r[0];
      assert r == [r[0]] + r[1..];
    }
  }

  /** Splitting a join of separator-free pieces gives back the pieces. */
  lemma {:induction false} SplitJoin(parts: seq<string>, sep: char)
    requires |parts| >= 1
    requires forall i :: 0 <= i < |parts| ==> sep !in parts[i]
    ensures Split(Join(parts, sep), sep) == parts
  {
    if |parts| == 1 {
      SplitPrefix(parts[0], "", sep);
      assert parts[0] + "" == parts[0];
    } else {
      var tail := Join(parts[1..], sep);
      SplitJoin(parts[1..], sep);
      assert parts[0] + [sep] + tail == parts[0] + ([sep] + tail);
      SplitPrefix(parts[0], [sep] + tail, sep);
      assert ([sep] + tail)[1..] == tail;
      assert parts[0] + "" == parts[0];
      assert parts == [parts[0]] + parts[1..];
    }
  }

  /** The first character of every non-empty piece, in order. */
  function FirstChars(parts: seq<string>): string {
    if parts == [] then ""
    else (if parts[0] == [] then "" else [parts[0][0]]) + FirstChars(parts[1..])
  }

  /** Avatar initials of a display name: `name.split(' ').map(n => n[0]).join('')`. */
  function Initials(name: string): (r: string)
    ensures r == WordStarts(name, true)
    ensures |r| <= |name|
    ensures ' ' !in r
  {
    InitialsAreWordStartsAux(name);
    FirstChars(Split(name, ' '))
  }

  /** Reference reading of the initials, character by character: a
      character is an initial iff it is not a space and it starts the name or
      follows a space. `atStart` says whether the previous character was a
      space (or there was none). */
  function WordStarts(s: string, atStart: bool): (r: string)
    ensures |r| <= |s|
    ensures ' ' !in r
    ensures forall c :: c in r ==> c in s
  {
    if s == [] then ""
    else (if s[0] != ' ' && atStart then [s[0]] else "") + WordStarts(s[1..], s[0] == ' ')
  }

  lemma {:induction false} InitialsAreWordStartsAux(s: string)
    ensures WordStarts(s, true) == FirstChars(Split(s, ' '))
    ensures WordStarts(s, false) == FirstChars(Split(s, ' ')[1..])
  {
    if s != [] {
      InitialsAreWordStartsAux(s[1..]);
      var rest := Split(s[1..], ' ');
      if s[0] == ' ' {
        assert Split(s, ' ')[1..] == rest;
      } else {
        var parts := Split(s, ' ');
        assert parts[1..] == rest[1..];
        assert FirstChars(rest) == (if rest[0] == [] then "" else [rest[0][0]]) + FirstChars(rest[1..]);
      }
    }
  }

  /** The initials are exactly the characters that start a space-separated
      word: at most one per character, never a space, and each taken from
      the name. */
  lemma InitialsAreWordStarts(name: string)
    ensures Initials(name) == WordStarts(name, true)
    ensures |Initials(name)| <= |name|
    ensures ' ' !in Initials(name)
  {
    InitialsAreWordStartsAux(name);
  }

  lemma {:induction false} WordStartsNonEmpty(s: string)
    requires exists i :: 0 <= i < |s| && s[i] != ' '
    ensures WordStarts(s, true) != ""
  {
    if s[0] == ' ' {
      var i :| 0 <= i < |s| && s[i] != ' ';
      assert s[1..][i - 1] == s[i];
      WordStartsNonEmpty(s[1..]);
    }
  }

  /** A name yields no initials exactly when it is made of spaces only. */
  lemma InitialsEmptyIffBlank(name: string)
    ensures Initials(name) == "" <==> forall i :: 0 <= i < |name| ==> name[i] == ' '
  {
    InitialsAreWordStarts(name);
    if exists i :: 0 <= i < |name| && name[i] != ' ' {
      WordStartsNonEmpty(name);
    } else {
      BlankHasNoWordStarts(name, true);
    }
  }

  lemma {:induction false} BlankHasNoWordStarts(s: string, atStart: bool)
    requires forall i :: 0 <= i < |s| ==> s[i] == ' '
    ensures WordStarts(s, atStart) == ""
  {
    if s != [] {
      BlankHasNoWordStarts(s[1..], true);
    }
  }

  /** A name of space-free words has one initial per non-empty word. */
  lemma InitialsOfWords(words: seq<string>)
    requires |words| >= 1
    requires forall i :: 0 <= i < |words| ==> ' ' !in words[i]
    ensures Initials(Join(words, ' ')) == FirstChars(words)
  {
    SplitJoin(words, ' ');
  }

  lemma InitialsExample()
    ensures Initials("Jo Doe") == "JD"
  {
    InitialsAreWordStarts("Jo Doe");
    assert "Jo Doe"[1..] == "o Doe";
    assert "o Doe"[1..] == " Doe";
    assert " Doe"[1..] == "Doe";
    assert "Doe"[1..] == "oe";
    assert "oe"[1..] == "e";
    assert WordStarts("oe", false) == "";
  }
}

/** `str.replace`, and when replacing a key by a marker removes it from a text. */
module Replacing {
  /** `text.replace(key, marker)`: occurrences from the left, without overlap. */
  function Replace(text: string, key: string, marker: string): string
    requires key != ""
    decreases |text|
  {
    if text == "" then ""
    else if key <= text then marker + Replace(text[|key|..], key, marker)
    else [text[0]] + Replace(text[1..], key, marker)
  }

  predicate Contains(text: string, key: string) {
    exists i :: 0 <= i <= |text| && key <= text[i..]
  }

  lemma {:induction false} ReplaceLength(text: string, key: string, marker: string)
    requires key != ""
    ensures |marker| >= |key| ==> |Replace(text, key, marker)| >= |text|
    ensures |marker| <= |key| ==> |Replace(text, key, marker)| <= |text|
    decreases |text|
  {
    if text != "" {
      ReplaceLength(if key <= text then text[|key|..] else text[1..], key, marker);
    }
  }

  lemma ContainsTail(text: string, key: string)
    requires text != "" && key != "" && !(key <= text)
    ensures Contains(text, key) <==> Contains(text[1..], key)
  {
    assert text[0..] == text;
    assert forall i :: 0 <= i < |text| ==> text[1..][i..] == text[i + 1..];
    if Contains(text, key) {
      var i :| 0 <= i <= |text| && key <= text[i..];
      assert text[1..][i - 1..] == text[i..];
    }
  }

  lemma SamePrefix(a: string, b: string, c: string, d: string)
    requires a + c == b + d && |a| == |b|
    ensures a == b
  {
    assert a == (a + c)[..|a|] && b == (b + d)[..|b|];
  }

  lemma {:induction false} ReplaceByItself(text: string, key: string)
    requires key != ""
    ensures Replace(text, key, key) == text
    decreases |text|
  {
    if text != "" {
      ReplaceByItself(if key <= text then text[|key|..] else text[1..], key);
    }
  }

  /** Replacing changes a text exactly when the key occurs in it and is not the marker itself. */
  lemma {:induction false} ReplaceChangesIff(text: string, key: string, marker: string)
    requires key != ""
    ensures Replace(text, key, marker) != text <==> key != marker && Contains(text, key)
    decreases |text|
  {
    ReplaceByItself(text, key);
    if text == "" {
      assert !Contains(text, key);
    } else if key <= text {
      assert text[0..] == text;
      ReplaceLength(text[|key|..], key, marker);
      assert text == key + text[|key|..];
      if |marker| == |key| && Replace(text, key, marker) == text {
        SamePrefix(marker, key, Replace(text[|key|..], key, marker), text[|key|..]);
      }
    } else {
      ReplaceChangesIff(text[1..], key, marker);
      ContainsTail(text, key);
      assert text == [text[0]] + text[1..];
    }
  }

  // ----- what replacing means: `marker.join(text.split(key))`

  function Join(pieces: seq<string>, separator: string): string
    requires pieces != []
  {
    if |pieces| == 1 then pieces[0] else pieces[0] + separator + Join(pieces[1..], separator)
  }

  /** In `piece + key` the key ends the text and occurs nowhere before. */
  predicate FirstAtEnd(piece: string, key: string) {
    forall i :: 0 <= i < |piece| ==> !(key <= (piece + key)[i..])
  }

  /** The pieces between the occurrences found from the left. */
  ghost predicate IsSplit(pieces: seq<string>, text: string, key: string) {
    && pieces != [] && Join(pieces, key) == text
    && (forall i :: 0 <= i < |pieces| - 1 ==> FirstAtEnd(pieces[i], key))
    && !Contains(pieces[|pieces| - 1], key)
  }

  /** `Replace` splits the text at the key, taking each time the first occurrence, and joins it with the marker. */
  lemma {:induction false} ReplaceIsJoin(text: string, key: string, marker: string) returns (pieces: seq<string>)
    requires key != ""
    ensures IsSplit(pieces, text, key) && Replace(text, key, marker) == Join(pieces, marker)
    decreases |text|
  {
    if text == "" {
      pieces := [""];
    } else if key <= text {
      var rest := ReplaceIsJoin(text[|key|..], key, marker);
      pieces := [""] + rest;
      SplitAtKey(text, key, rest, pieces);
      JoinEmpty(marker, rest, pieces);
    } else {
      var rest := ReplaceIsJoin(text[1..], key, marker);
      pieces := [[text[0]] + rest[0]] + rest[1..];
      SplitLonger(text, key, rest, pieces);
      JoinLonger(text[0], marker, rest, pieces);
    }
  }

  lemma SplitAtKey(text: string, key: string, rest: seq<string>, pieces: seq<string>)
    requires key <= text && IsSplit(rest, text[|key|..], key) && pieces == [""] + rest
    ensures IsSplit(pieces, text, key)
  {
    JoinEmpty(key, rest, pieces);
    assert text == key + text[|key|..];
  }

  lemma JoinEmpty(separator: string, rest: seq<string>, pieces: seq<string>)
    requires rest != [] && pieces == [""] + rest
    ensures Join(pieces, separator) == separator + Join(rest, separator)
  {
    assert pieces[1..] == rest;
    assert "" + separator + Join(rest, separator) == separator + Join(rest, separator);
  }

  lemma JoinLonger(c: char, separator: string, rest: seq<string>, pieces: seq<string>)
    requires rest != [] && pieces == [[c] + rest[0]] + rest[1..]
    ensures Join(pieces, separator) == [c] + Join(rest, separator)
  {
    assert pieces[1..] == rest[1..];
  }

  /** One more character before the first piece, where the key does not start. */
  lemma SplitLonger(text: string, key: string, rest: seq<string>, pieces: seq<string>)
    requires text != "" && key != "" && !(key <= text) && IsSplit(rest, text[1..], key)
    requires pieces == [[text[0]] + rest[0]] + rest[1..]
    ensures IsSplit(pieces, text, key)
  {
    var c, first := text[0], rest[0];
    JoinLonger(c, key, rest, pieces);
    if |rest| == 1 {
      assert text == [c] + first;
      ContainsTail(text, key);
    } else {
      StartsLonger(text, key, first);
      forall i | 0 <= i < |[c] + first| ensures !(key <= ([c] + first + key)[i..]) {
        assert i > 0 ==> ([c] + first + key)[i..] == (first + key)[i - 1..];
      }
    }
  }

  lemma StartsLonger(text: string, key: string, first: string)
    requires text != "" && !(key <= text) && first + key <= text[1..]
    ensures !(key <= ([text[0]] + first + key)[0..])
  {
    var t := [text[0]] + first + key;
    assert t <= text by {
      assert text == [text[0]] + text[1..];
    }
    assert |key| <= |t| ==> t[..|key|] == text[..|key|];
  }

  // ----- when replacing removes the key

  /** One of the two starts with the other. */
  predicate Comparable(a: string, b: string) {
    a <= b || b <= a
  }

  /** The marker can complete an occurrence of the key with what follows it, or with what precedes it in a text
      in which the key was first found right there. */
  predicate Clash(key: string, marker: string) {
    || (exists i :: 0 <= i < |marker| && Comparable(key, marker[i..]))
    || (exists m :: 1 <= m < |key| && FirstAtEnd(key[..m], key) && Comparable(key[m..], marker))
  }

  /** Where the key does not start before `before` ends, a text that continues `before` to a key does not arise. */
  lemma {:induction false} NotCompleted(before: string, text: string, key: string, marker: string)
    requires key != "" && !Clash(key, marker) && 0 < |before| <= |key| && before == key[..|before|]
    requires forall i :: 0 <= i < |before| ==> !(key <= (before + text)[i..])
    ensures !(key[|before|..] <= Replace(text, key, marker))
    decreases |text|
  {
    var m := |before|;
    assert (before + text)[0..] == before + text;
    assert m == |key| ==> before == key && key <= before + text;
    if m == |key| {
    } else if key <= text {
      FoundAfter(before, text, key);
      PrefixesComparable(key[m..], marker, marker + Replace(text[|key|..], key, marker));
    } else if text != "" && key[m] == text[0] {
      var longer := before + [text[0]];
      assert longer + text[1..] == before + text;
      assert (before + text)[m..] == text;
      NotCompleted(longer, text[1..], key, marker);
      TailOfPrefix(key[m..], [text[0]] + Replace(text[1..], key, marker));
    }
  }

  lemma TailOfPrefix(a: string, b: string)
    requires a != "" && b != ""
    ensures a <= b ==> a[1..] <= b[1..]
  {
  }

  lemma PrefixesComparable(a: string, b: string, whole: string)
    requires b <= whole
    ensures a <= whole ==> Comparable(a, b)
  {
    if a <= whole {
      assert if |a| <= |b| then a == b[..|a|] else b == a[..|b|];
    }
  }

  lemma FoundAfter(before: string, text: string, key: string)
    requires key <= text && forall i :: 0 <= i < |before| ==> !(key <= (before + text)[i..])
    ensures FirstAtEnd(before, key)
  {
    forall i | 0 <= i < |before| ensures !(key <= (before + key)[i..]) {
      assert (before + text)[i..] == (before + key)[i..] + text[|key|..];
    }
  }

  lemma {:induction false} NoKeyLeft(text: string, key: string, marker: string, i: nat)
    requires key != "" && !Clash(key, marker) && i <= |Replace(text, key, marker)|
    ensures !(key <= Replace(text, key, marker)[i..])
    decreases |text|
  {
    if text == "" {
    } else if key <= text {
      var rest := Replace(text[|key|..], key, marker);
      if i >= |marker| {
        NoKeyLeft(text[|key|..], key, marker, i - |marker|);
        assert (marker + rest)[i..] == rest[i - |marker|..];
      } else {
        assert (marker + rest)[i..] == marker[i..] + rest;
        PrefixesComparable(key, marker[i..], marker[i..] + rest);
      }
    } else {
      var rest := Replace(text[1..], key, marker);
      if i > 0 {
        NoKeyLeft(text[1..], key, marker, i - 1);
        assert ([text[0]] + rest)[i..] == rest[i - 1..];
      } else if key[0] == text[0] {
        assert [text[0]] + text[1..] == text && key[..1] == [text[0]];
        NotCompleted([text[0]], text[1..], key, marker);
        TailOfPrefix(key, [text[0]] + rest);
      }
    }
  }

  /** A text shorter than the key stays as it is. */
  lemma ReplaceShort(text: string, key: string, marker: string)
    requires |text| < |key|
    ensures Replace(text, key, marker) == text
  {
    ReplaceChangesIff(text, key, marker);
  }

  lemma {:induction false} ReplaceFirst(piece: string, text: string, key: string, marker: string, whole: string)
    requires key != "" && FirstAtEnd(piece, key) && whole == piece + key + text
    ensures Replace(whole, key, marker) == piece + marker + Replace(text, key, marker)
    decreases |piece|
  {
    if piece == "" {
      assert whole == key + text && whole[|key|..] == text;
    } else {
      NotAtStart(piece, text, key, whole);
      forall i | 0 <= i < |piece[1..]| ensures !(key <= (piece[1..] + key)[i..]) {
        assert (piece[1..] + key)[i..] == (piece + key)[i + 1..];
      }
      ReplaceFirst(piece[1..], text, key, marker, whole[1..]);
      assert [whole[0]] + (piece[1..] + marker + Replace(text, key, marker)) == piece + marker + Replace(text, key, marker);
    }
  }

  lemma NotAtStart(piece: string, text: string, key: string, whole: string)
    requires key != "" && piece != "" && FirstAtEnd(piece, key) && whole == piece + key + text
    ensures !(key <= whole) && whole[1..] == piece[1..] + key + text && whole[0] == piece[0]
  {
    assert (piece + key)[0..] == piece + key;
    assert whole[..|key|] == (piece + key)[..|key|];
  }

  lemma ContainsAt(text: string, i: nat, key: string)
    requires i <= |text| && key <= text[i..]
    ensures Contains(text, key)
  {
  }

  /** The marker ends with the beginning of the key, or holds it. */
  lemma ClashAtEnd(key: string, marker: string, i: nat) returns (text: string)
    requires key != "" && i < |marker| && Comparable(key, marker[i..])
    ensures Contains(Replace(text, key, marker), key)
  {
    var tail := if key <= marker[i..] then "" else key[|marker| - i..];
    text := "" + key + tail;
    ReplaceFirst("", tail, key, marker, text);
    ReplaceShort(tail, key, marker);
    var out := "" + marker + tail;
    BeginningFollows(key, marker, i, tail, out);
    ContainsAt(out, i, key);
  }

  lemma BeginningFollows(key: string, marker: string, i: nat, tail: string, out: string)
    requires i < |marker| && out == "" + marker + tail
    requires if key <= marker[i..] then tail == "" else marker[i..] <= key && tail == key[|marker| - i..]
    ensures key <= out[i..]
  {
    assert out[i..] == marker[i..] + tail;
  }

  /** The marker starts with the end of the key, or the end of the key with it. */
  lemma ClashAtStart(key: string, marker: string, m: nat) returns (text: string)
    requires 1 <= m < |key| && FirstAtEnd(key[..m], key) && Comparable(key[m..], marker)
    ensures Contains(Replace(text, key, marker), key)
  {
    var tail := if key[m..] <= marker then "" else key[m + |marker|..];
    text := key[..m] + key + tail;
    ReplaceFirst(key[..m], tail, key, marker, text);
    ReplaceShort(tail, key, marker);
    var out := key[..m] + marker + tail;
    EndFollows(key, marker, m, tail, out);
    ContainsAt(out, 0, key);
  }

  lemma EndFollows(key: string, marker: string, m: nat, tail: string, out: string)
    requires m < |key| && out == key[..m] + marker + tail
    requires if key[m..] <= marker then tail == "" else marker <= key[m..] && tail == key[m + |marker|..]
    ensures key <= out[0..]
  {
    assert key == key[..m] + key[m..];
    if !(key[m..] <= marker) {
      assert key[m..] == marker + tail;
    }
  }

  ghost predicate Removes(key: string, marker: string, text: string)
    requires key != ""
  {
    !Contains(Replace(text, key, marker), key)
  }

  /** Replacing removes the key from every text exactly when marker and key do not clash. */
  lemma ReplaceRemovesIff(key: string, marker: string)
    requires key != ""
    ensures (forall text: string :: Removes(key, marker, text)) <==> !Clash(key, marker)
  {
    if Clash(key, marker) {
      var text;
      if i :| 0 <= i < |marker| && Comparable(key, marker[i..]) {
        text := ClashAtEnd(key, marker, i);
      } else {
        var m :| 1 <= m < |key| && FirstAtEnd(key[..m], key) && Comparable(key[m..], marker);
        text := ClashAtStart(key, marker, m);
      }
      assert !Removes(key, marker, text);
    } else {
      forall text: string ensures Removes(key, marker, text) {
        forall i | 0 <= i <= |Replace(text, key, marker)| ensures !(key <= Replace(text, key, marker)[i..]) {
          NoKeyLeft(text, key, marker, i);
        }
      }
    }
  }
}

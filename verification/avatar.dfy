/**
 * The avatar component: it shows an image when given one, otherwise the
 * initials of the name, otherwise a plain placeholder.
 */
module Avatar {
  import opened Wrappers
  import opened JsString
  import opened Sequences

  /**
   * `words.map(n => n[0]).join('')`: the first character of every word;
   * an empty word gives `undefined`, which joins as the empty string.
   */
  function FirstChars(words: seq<string>): string {
    if words == [] then []
    else (if words[0] == [] then [] else [words[0][0]]) + FirstChars(words[1..])
  }

  /** `getInitials`: the upper-cased first characters of the space-separated words, at most two of them. */
  function GetInitials(name: string): (r: string)
    ensures |r| <= 2
  {
    Slice(ToUpperCase(FirstChars(Split(name, ' '))), 2)
  }

  /**
   * The characters of `s` that begin a word: a character other than a space
   * that comes first or right after a space. `afterSpace` says whether the
   * character before `s` was a space (or there was none).
   */
  function WordStarts(s: string, afterSpace: bool): (r: string)
    ensures |r| <= |s|
    ensures ' ' !in r
  {
    if s == [] then []
    else (if s[0] != ' ' && afterSpace then [s[0]] else []) + WordStarts(s[1..], s[0] == ' ')
  }

  /**
   * Splitting on spaces and taking each piece's first character picks out
   * exactly the word starts; the pieces after the first pick out the word
   * starts that follow a space.
   */
  lemma {:induction false} FirstCharsOfSplit(s: string)
    ensures FirstChars(Split(s, ' ')) == WordStarts(s, true)
    ensures FirstChars(Split(s, ' ')[1..]) == WordStarts(s, false)
  {
    if s != [] {
      var rest := Split(s[1..], ' ');
      FirstCharsOfSplit(s[1..]);
      assert FirstChars(rest) == (if rest[0] == [] then [] else [rest[0][0]]) + FirstChars(rest[1..]);
      if s[0] == ' ' {
        assert Split(s, ' ') == [""] + rest;
        assert Split(s, ' ')[1..] == rest;
      } else {
        var w := Split(s, ' ');
        assert w == [[s[0]] + rest[0]] + rest[1..];
        assert w[1..] == rest[1..];
      }
    }
  }

  /** The initials are the upper-cased word starts of the name, at most two. */
  lemma InitialsAreWordStarts(name: string)
    ensures GetInitials(name) == Slice(ToUpperCase(WordStarts(name, true)), 2)
  {
    FirstCharsOfSplit(name);
  }

  /** A non-empty name without spaces yields exactly one initial: its first character, upper-cased. */
  lemma {:induction false} SingleWordInitial(name: string)
    requires name != [] && ' ' !in name
    ensures GetInitials(name) == [UpperChar(name[0])]
  {
    InitialsAreWordStarts(name);
    NoSpaceNoLaterStarts(name[1..], false);
    assert WordStarts(name, true) == [name[0]] + WordStarts(name[1..], false);
  }

  lemma {:induction false} NoSpaceNoLaterStarts(s: string, afterSpace: bool)
    requires ' ' !in s && !afterSpace
    ensures WordStarts(s, afterSpace) == []
  {
    if s != [] {
      assert s[0] in s;
      NoSpaceNoLaterStarts(s[1..], false);
    }
  }

  /** Spaces contribute nothing: leading spaces and runs of spaces do not change the initials. */
  lemma ExtraSpacesIgnored(a: string, b: string)
    ensures GetInitials(" " + a) == GetInitials(a)
    ensures GetInitials(a + "  " + b) == GetInitials(a + " " + b)
  {
    InitialsAreWordStarts(" " + a);
    InitialsAreWordStarts(a);
    assert (" " + a)[1..] == a;
    InitialsAreWordStarts(a + "  " + b);
    InitialsAreWordStarts(a + " " + b);
    DoubleSpace(a, b, true);
  }

  lemma {:induction false} DoubleSpace(a: string, b: string, afterSpace: bool)
    ensures WordStarts(a + "  " + b, afterSpace) == WordStarts(a + " " + b, afterSpace)
  {
    if a == [] {
      assert (a + "  " + b)[1..] == " " + b;
      assert (" " + b)[1..] == b;
      assert (a + " " + b)[1..] == b;
    } else {
      assert (a + "  " + b)[1..] == a[1..] + "  " + b;
      assert (a + " " + b)[1..] == a[1..] + " " + b;
      DoubleSpace(a[1..], b, a[0] == ' ');
    }
  }

  /** Whether the position right after `x` follows a space, given that `x` itself follows one iff `afterSpace`. */
  function EndsAfterSpace(x: string, afterSpace: bool): bool {
    if x == [] then afterSpace else x[|x| - 1] == ' '
  }

  lemma {:induction false} WordStartsAppend(x: string, y: string, afterSpace: bool)
    ensures WordStarts(x + y, afterSpace) == WordStarts(x, afterSpace) + WordStarts(y, EndsAfterSpace(x, afterSpace))
  {
    if x == [] {
      assert x + y == y;
    } else {
      var z := x + y;
      assert z[1..] == x[1..] + y;
      WordStartsAppend(x[1..], y, x[0] == ' ');
      assert EndsAfterSpace(x[1..], x[0] == ' ') == EndsAfterSpace(x, afterSpace) by {
        if |x| > 1 {
          assert x[1..][|x| - 2] == x[|x| - 1];
        }
      }
      var head: string := if x[0] != ' ' && afterSpace then [x[0]] else [];
      var rest := WordStarts(x[1..], x[0] == ' ');
      var tail := WordStarts(y, EndsAfterSpace(x, afterSpace));
      assert z[0] == x[0];
      assert WordStarts(z[1..], x[0] == ' ') == rest + tail;
      assert WordStarts(z, afterSpace) == head + WordStarts(z[1..], x[0] == ' ');
      assert WordStarts(x, afterSpace) == head + rest;
      ConcatAssoc(head, rest, tail);
    }
  }

  lemma TwoWordStarts(a: string, b: string)
    requires a != [] && ' ' !in a
    requires b != [] && ' ' !in b
    ensures WordStarts(a + " " + b, true) == [a[0], b[0]]
  {
    assert WordStarts(a, true) == [a[0]] + WordStarts(a[1..], false);
    NoSpaceNoLaterStarts(a[1..], false);
    assert WordStarts(b, true) == [b[0]] + WordStarts(b[1..], false);
    NoSpaceNoLaterStarts(b[1..], false);
    WordStartsAppend(a, " ", true);
    assert EndsAfterSpace(a, true) == false by {
      assert a[|a| - 1] in a;
    }
    assert WordStarts(" ", false) == [];
    var a' := a + " ";
    assert EndsAfterSpace(a', true);
    WordStartsAppend(a', b, true);
  }

  /** Two words separated by one space yield the upper-cased first character of each. */
  lemma TwoWordInitials(a: string, b: string)
    requires a != [] && ' ' !in a
    requires b != [] && ' ' !in b
    ensures GetInitials(a + " " + b) == [UpperChar(a[0]), UpperChar(b[0])]
  {
    InitialsAreWordStarts(a + " " + b);
    TwoWordStarts(a, b);
  }

  /** The initials are empty exactly when the name holds nothing but spaces. */
  lemma InitialsEmptyIffBlank(name: string)
    ensures GetInitials(name) == [] <==> forall i :: 0 <= i < |name| ==> name[i] == ' '
  {
    InitialsAreWordStarts(name);
    var w := WordStarts(name, true);
    assert |ToUpperCase(w)| == |w|;
    if forall i :: 0 <= i < |name| ==> name[i] == ' ' {
      BlankHasNoStarts(name, true);
    } else {
      var k :| 0 <= k < |name| && name[k] != ' ';
      NonSpaceStarts(name, k);
    }
  }

  lemma {:induction false} BlankHasNoStarts(s: string, afterSpace: bool)
    requires forall i :: 0 <= i < |s| ==> s[i] == ' '
    ensures WordStarts(s, afterSpace) == []
  {
    if s != [] {
      BlankHasNoStarts(s[1..], true);
    }
  }

  lemma {:induction false} NonSpaceStarts(s: string, k: nat)
    requires k < |s| && s[k] != ' '
    ensures WordStarts(s, true) != []
  {
    if s[0] == ' ' {
      NonSpaceStarts(s[1..], k - 1);
    }
  }

  // The literals are parameters fixed by the precondition, so the solver does not unfold the functions on them eagerly; this keeps the proof fast.
  /** The worked names: "Jane Doe" gives "JD", "Username" gives "U". */
  lemma InitialsExamples(first: string, last: string, user: string)
    requires first == "Jane" && last == "Doe" && user == "Username"
    ensures GetInitials(first + " " + last) == "JD"
    ensures GetInitials(user) == "U"
  {
    TwoWordInitials(first, last);
    SingleWordInitial(user);
  }

  /** The `source` prop: a remote image `{ uri }` or a bundled asset, which is a number. */
  datatype ImageSource = Uri(uri: string) | Asset(id: int)

  /** What the avatar shows. */
  datatype AvatarContent = Image(source: ImageSource) | Initials(text: string) | Placeholder

  /** JavaScript truthiness of `source`: an object always, a number unless it is 0. */
  predicate IsTruthy(source: ImageSource) {
    source.Uri? || source.id != 0
  }

  /**
   * The render choice: the image when `source` is truthy; otherwise the
   * initials when `name` is a non-empty string; otherwise the placeholder.
   */
  function Content(source: Option<ImageSource>, name: Option<string>): (c: AvatarContent)
    ensures c.Image? <==> source.Some? && IsTruthy(source.value)
    ensures c.Image? ==> c.source == source.value
    ensures c.Initials? <==> !(source.Some? && IsTruthy(source.value)) && name.Some? && name.value != []
    ensures c.Initials? ==> c.text == GetInitials(name.value)
  {
    if source.Some? && IsTruthy(source.value) then Image(source.value)
    else if name.Some? && name.value != [] then Initials(GetInitials(name.value))
    else Placeholder
  }
}

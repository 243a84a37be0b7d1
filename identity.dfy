/** Derivation of a user id from an email address, written with JavaScript's
    `String.prototype.split` and `Array.prototype.join` as the handler uses them. */
module Identity {
  import opened Request
  import opened Sequences

  /** Number of occurrences of `c` in `s`. */
  function Occurrences(s: string, c: char): (n: nat)
    ensures n == 0 <==> c !in s
    ensures n <= |s|
  {
    if s == [] then 0
    else
      assert s == [s[0]] + s[1..];
      (if s[0] == c then 1 else 0) + Occurrences(s[1..], c)
  }

  /** `s.split(sep)` for a one-character separator: the pieces between
      separators, always at least one (`"".split("@")` is `[""]`). */
  function Split(s: string, sep: char): (parts: seq<string>)
    ensures |parts| == Occurrences(s, sep) + 1
    ensures forall i :: 0 <= i < |parts| ==> sep !in parts[i]
  {
    if s == [] then [[]]
    else
      var rest := Split(s[1..], sep);
      if s[0] == sep then [[]] + rest
      else [[s[0]] + rest[0]] + rest[1..]
  }

  /** `parts.join(sep)`. */
  function Join(parts: seq<string>, sep: string): string {
    if |parts| == 0 then []
    else if |parts| == 1 then parts[0]
    else parts[0] + sep + Join(parts[1..], sep)
  }

  /** `s` with every `c` deleted. */
  function Remove(s: string, c: char): (r: string)
    ensures c !in r
    ensures forall x :: x in r ==> x in s
  {
    if s == [] then []
    else
      assert s == [s[0]] + s[1..];
      (if s[0] == c then [] else [s[0]]) + Remove(s[1..], c)
  }

  /** The part of `s` before the first `c` (all of `s` when there is none). */
  function TakeUntil(s: string, c: char): (r: string)
    ensures c !in r
    ensures IsPrefix(r, s)
    ensures |r| < |s| ==> s[|r|] == c
  {
    if s == [] || s[0] == c then []
    else [s[0]] + TakeUntil(s[1..], c)
  }

  /** The part of `s` after the first `c`. */
  function DropThrough(s: string, c: char): (r: string)
    ensures c in s ==> s == TakeUntil(s, c) + [c] + r
  {
    if s == [] then []
    else if s[0] == c then
      assert s == [] + [c] + s[1..];
      s[1..]
    else
      var r := DropThrough(s[1..], c);
      assert s == [s[0]] + s[1..];
      assert c in s ==> c in s[1..] && s == [s[0]] + (TakeUntil(s[1..], c) + [c] + r);
      r
  }

  /** The email's local part: everything before the first '@'. */
  function LocalPart(email: string): string {
    TakeUntil(email, '@')
  }

  /** The piece `email.split('@')[1]`: between the first '@' and the next one (or the end). */
  function DomainPart(email: string): string {
    TakeUntil(DropThrough(email, '@'), '@')
  }

  /** The user id of `/register-user`: the email is cut at every '@'; the first
      piece is kept whole, the second loses its dots, and the rest is ignored.
      `None` stands for the TypeError of an email with no '@', which has no
      second piece. */
  function Normalize(email: string): (userId: Option<string>)
    ensures userId.Some? <==> '@' in email
    ensures userId.Some? ==> '@' !in userId.value
  {
    var firstSplit := Split(email, '@');
    if |firstSplit| < 2 then None
    else
      var cleaned := Join(Split(firstSplit[1], '.'), "");
      JoinSplitRemove(firstSplit[1], '.');
      Some(firstSplit[0] + cleaned)
  }

  // ---------------------------------------------------------------- split / join

  lemma {:induction false} SplitNoSep(s: string, c: char)
    requires c !in s
    ensures Split(s, c) == [s]
  {
    if s != [] {
      assert s == [s[0]] + s[1..];
      SplitNoSep(s[1..], c);
    }
  }

  /** Splitting at the first separator. */
  lemma {:induction false} SplitAt(a: string, b: string, c: char)
    requires c !in a
    ensures Split(a + [c] + b, c) == [a] + Split(b, c)
  {
    var s := a + [c] + b;
    if a == [] {
      assert s[1..] == b;
    } else {
      assert s[1..] == a[1..] + [c] + b;
      assert a == [a[0]] + a[1..];
      SplitAt(a[1..], b, c);
    }
  }

  /** The first piece is the part before the first separator. */
  lemma SplitHead(s: string, c: char)
    ensures Split(s, c)[0] == TakeUntil(s, c)
  {
    if c in s {
      SplitAt(TakeUntil(s, c), DropThrough(s, c), c);
    } else {
      SplitNoSep(s, c);
      assert TakeUntil(s, c) == s;
    }
  }

  lemma JoinCons(x: string, rest: seq<string>, sep: string)
    requires |rest| >= 1
    ensures Join([x + rest[0]] + rest[1..], sep) == x + Join(rest, sep)
  {
    var parts := [x + rest[0]] + rest[1..];
    if |rest| > 1 {
      assert parts[1..] == rest[1..];
    }
  }

  /** `s.split(c).join(c)` gives back `s`. */
  lemma {:induction false} JoinSplit(s: string, c: char)
    ensures Join(Split(s, c), [c]) == s
  {
    if s != [] {
      var rest := Split(s[1..], c);
      JoinSplit(s[1..], c);
      assert s == [s[0]] + s[1..];
      if s[0] == c {
        var parts: seq<string> := [[]] + rest;
        assert parts[0] == [] && parts[1..] == rest;
        assert Join(parts, [c]) == [] + [c] + Join(rest, [c]);
      } else {
        JoinCons([s[0]], rest, [c]);
      }
    }
  }

  /** Joining separator-free pieces and splitting again gives back the pieces. */
  lemma {:induction false} SplitJoin(parts: seq<string>, c: char)
    requires |parts| >= 1
    requires forall i :: 0 <= i < |parts| ==> c !in parts[i]
    ensures Split(Join(parts, [c]), c) == parts
  {
    if |parts| == 1 {
      SplitNoSep(parts[0], c);
    } else {
      SplitJoin(parts[1..], c);
      SplitAt(parts[0], Join(parts[1..], [c]), c);
      assert [parts[0]] + parts[1..] == parts;
    }
  }

  /** `s.split(c).join('')` deletes every `c`. */
  lemma {:induction false} JoinSplitRemove(s: string, c: char)
    ensures Join(Split(s, c), "") == Remove(s, c)
  {
    if s != [] {
      var rest := Split(s[1..], c);
      JoinSplitRemove(s[1..], c);
      if s[0] == c {
        assert ([[]] + rest)[1..] == rest;
      } else {
        JoinCons([s[0]], rest, "");
      }
    }
  }

  // ---------------------------------------------------------------- normalisation

  /** The user id is the local part, kept as it is, followed by the piece after
      the first '@' (up to any second '@') with every '.' removed. */
  lemma NormalizeSpec(email: string)
    ensures '@' !in email ==> Normalize(email) == None
    ensures '@' in email ==>
      Normalize(email) == Some(LocalPart(email) + Remove(DomainPart(email), '.'))
  {
    if '@' in email {
      var d := DropThrough(email, '@');
      SplitAt(TakeUntil(email, '@'), d, '@');
      SplitHead(d, '@');
      JoinSplitRemove(DomainPart(email), '.');
    }
  }

  /** For an address `local@domain` with a single '@', the id is `local` followed
      by `domain` without its dots. */
  lemma NormalizeAddress(local: string, domain: string)
    requires '@' !in local && '@' !in domain
    ensures Normalize(local + "@" + domain) == Some(local + Remove(domain, '.'))
  {
    var email := local + "@" + domain;
    SplitAt(local, domain, '@');
    SplitNoSep(domain, '@');
    JoinSplitRemove(domain, '.');
  }

  /** Dots in the domain never matter: any two addresses whose domains agree
      once the dots are gone get the same id. */
  lemma DomainDotsIgnored(local: string, d1: string, d2: string)
    requires '@' !in local && '@' !in d1 && '@' !in d2
    requires Remove(d1, '.') == Remove(d2, '.')
    ensures Normalize(local + "@" + d1) == Normalize(local + "@" + d2)
  {
    NormalizeAddress(local, d1);
    NormalizeAddress(local, d2);
  }

  /** The derivation is not injective: distinct addresses share an id. */
  lemma NormalizeCollides()
    ensures "ab@c.d" != "a@bc.d"
    ensures Normalize("ab@c.d") == Normalize("a@bc.d") == Some("abcd")
  {
    // the literal facts first: once Normalize of a literal is in scope, they get costly
    assert "ab@c.d" == "ab" + "@" + "c.d";
    assert "a@bc.d" == "a" + "@" + "bc.d";
    assert Remove("c.d", '.') == "cd";
    assert Remove("bc.d", '.') == "bcd";
    assert "ab" + "cd" == "abcd" == "a" + "bcd";
    NormalizeAddress("ab", "c.d");
    NormalizeAddress("a", "bc.d");
  }

  /** A dot in the domain is ignored: `a@b.c` and `a@bc` collide. */
  lemma NormalizeIgnoresDomainDot()
    ensures Normalize("a@b.c") == Normalize("a@bc") == Some("abc")
  {
    assert "a@b.c" == "a" + "@" + "b.c";
    assert "a@bc" == "a" + "@" + "bc";
    assert Remove("b.c", '.') == Remove("bc", '.') == "bc";
    assert "a" + "bc" == "abc";
    NormalizeAddress("a", "b.c");
    NormalizeAddress("a", "bc");
  }

  /** Characters move freely across the '@' when the domain part loses its dots:
      `x y @ d` and `x @ y d` collide whenever `y` has no dot. */
  lemma NormalizeShiftCollides(x: string, y: string, d: string)
    requires '@' !in x && '@' !in y && '@' !in d && '.' !in y
    ensures Normalize(x + y + "@" + d) == Normalize(x + "@" + (y + d))
  {
    var rd := Remove(d, '.');
    assert Remove(y + d, '.') == y + rd by {
      RemoveConcat(y, d, '.');
      RemoveAbsent(y, '.');
    }
    assert (x + y) + rd == x + (y + rd);
    NormalizeAddress(x + y, d);
    NormalizeAddress(x, y + d);
  }

  lemma {:induction false} RemoveConcat(a: string, b: string, c: char)
    ensures Remove(a + b, c) == Remove(a, c) + Remove(b, c)
  {
    if a != [] {
      var head: string := if a[0] == c then [] else [a[0]];
      assert (a + b)[0] == a[0] && (a + b)[1..] == a[1..] + b;
      RemoveConcat(a[1..], b, c);
      calc {
        Remove(a + b, c);
        head + Remove(a[1..] + b, c);
        head + (Remove(a[1..], c) + Remove(b, c));
        (head + Remove(a[1..], c)) + Remove(b, c);
        Remove(a, c) + Remove(b, c);
      }
    } else {
      assert a + b == b;
    }
  }

  lemma {:induction false} RemoveAbsent(s: string, c: char)
    requires c !in s
    ensures Remove(s, c) == s
  {
    if s != [] {
      assert s == [s[0]] + s[1..];
      RemoveAbsent(s[1..], c);
    }
  }
}

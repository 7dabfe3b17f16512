/** `camelToSnake` and `snakeToCamel`. `toLowerCase` is a parameter: it acts on all of Unicode. */
module CaseConversion {

  predicate IsUpper(c: char) { 'A' <= c <= 'Z' }

  predicate IsLower(c: char) { 'a' <= c <= 'z' }

  function ToLower(c: char): char {
    if IsUpper(c) then (c as int + 32) as char else c
  }

  function ToUpper(c: char): char {
    if IsLower(c) then (c as int - 32) as char else c
  }

  /** `str.replace(/([A-Z])/g, '_$1')` */
  function MarkCapitals(s: string): string {
    if s == [] then []
    else (if IsUpper(s[0]) then ['_', s[0]] else [s[0]]) + MarkCapitals(s[1..])
  }

  /** The ASCII capitals of a string lowered, and nothing else. */
  function Lower(s: string): (r: string)
    ensures |r| == |s| && forall i :: 0 <= i < |s| ==> r[i] == ToLower(s[i])
  {
    seq(|s|, i requires 0 <= i < |s| => ToLower(s[i]))
  }

  /** `str.replace(/^_/, '')` */
  function DropUnderscore(s: string): string {
    if s != [] && s[0] == '_' then s[1..] else s
  }

  /** A character that `toLowerCase` leaves as it is. */
  predicate Stays(lower: string -> string, c: char) {
    lower([c]) == [c]
  }

  /** What is used of `toLowerCase`: ASCII letters are lowered as usual; where no other character is
      changed alone, none is changed in context; and what comes out is in lower case already. */
  ghost predicate LowersCase(lower: string -> string) {
    && (forall c: char :: c as int < 0x80 && !IsUpper(c) ==> Stays(lower, c))
    && (forall s :: (forall c :: c in s ==> IsUpper(c) || Stays(lower, c)) ==> lower(s) == Lower(s))
    && (forall s, c :: c in lower(s) ==> Stays(lower, c))
  }

  function CamelToSnake(lower: string -> string, s: string): string {
    DropUnderscore(lower(MarkCapitals(s)))
  }

  /** `str.replace(/_([a-z])/g, ...)`: matches are taken from the left and do not overlap. */
  function SnakeToCamel(s: string): string {
    if s == [] then []
    else if |s| >= 2 && s[0] == '_' && IsLower(s[1]) then [ToUpper(s[1])] + SnakeToCamel(s[2..])
    else [s[0]] + SnakeToCamel(s[1..])
  }

  /** An underscore directly before a lower-case letter, which `snakeToCamel` reads as a capital. */
  predicate HasMarkedLower(s: string) {
    exists i :: 0 <= i < |s| - 1 && s[i] == '_' && IsLower(s[i + 1])
  }

  /** The property names that survive the trip to snake_case and back: the only capitals are those
      of ASCII, none at the start. */
  ghost predicate CamelName(lower: string -> string, s: string) {
    && !HasMarkedLower(s)
    && (s != [] ==> !IsUpper(s[0]) && s[0] != '_')
    && forall c :: c in s ==> IsUpper(c) || Stays(lower, c)
  }

  ghost predicate SnakeName(lower: string -> string, s: string) {
    && (forall c :: c in s ==> Stays(lower, c))
    && (s != [] ==> s[0] != '_')
  }

  // ---------- camel -> snake -> camel ----------

  lemma LowerCons(s: string)
    requires s != []
    ensures Lower(MarkCapitals(s)) ==
            (if IsUpper(s[0]) then ['_', ToLower(s[0])] else [s[0]]) + Lower(MarkCapitals(s[1..]))
  {
  }

  lemma MarkedLowerTail(s: string)
    requires s != []
    ensures HasMarkedLower(s) <==> (|s| >= 2 && s[0] == '_' && IsLower(s[1])) || HasMarkedLower(s[1..])
  {
    assert forall i :: 0 <= i < |s[1..]| ==> s[1..][i] == s[i + 1];
    if HasMarkedLower(s) {
      var i :| 0 <= i < |s| - 1 && s[i] == '_' && IsLower(s[i + 1]);
      assert i > 0 ==> s[1..][i - 1] == '_' && IsLower(s[1..][i - 1 + 1]);
    }
    if HasMarkedLower(s[1..]) {
      var i :| 0 <= i < |s[1..]| - 1 && s[1..][i] == '_' && IsLower(s[1..][i + 1]);
      assert s[i + 1] == '_' && IsLower(s[i + 1 + 1]);
    }
  }

  lemma {:induction false} CamelOfMarked(s: string)
    ensures SnakeToCamel(Lower(MarkCapitals(s))) == s <==> !HasMarkedLower(s)
  {
    if s != [] {
      LowerCons(s);
      MarkedLowerTail(s);
      var rest := Lower(MarkCapitals(s[1..]));
      var all := Lower(MarkCapitals(s));
      CamelOfMarked(s[1..]);
      if IsUpper(s[0]) {
        assert all[2..] == rest;
        assert SnakeToCamel(all) == [s[0]] + SnakeToCamel(rest);
      } else {
        assert all[1..] == rest;
        if |s| >= 2 {
          LowerCons(s[1..]);
          assert rest[0] == if IsUpper(s[1]) then '_' else s[1];
        }
        if |s| >= 2 && s[0] == '_' && IsLower(s[1]) {
          assert SnakeToCamel(all)[0] == ToUpper(s[1]) != s[0];
        } else {
          assert SnakeToCamel(all) == [s[0]] + SnakeToCamel(rest);
        }
      }
      assert s == [s[0]] + s[1..];
    }
  }

  /** Plain ASCII lowering is one such function. */
  lemma AsciiLowersCase()
    ensures LowersCase(Lower)
  {
    forall c: char | !IsUpper(c) ensures Stays(Lower, c) {
      assert Lower([c]) == [c];
    }
    forall s, c | c in Lower(s) ensures Stays(Lower, c) {
      var i :| 0 <= i < |s| && Lower(s)[i] == c;
      assert c == ToLower(s[i]);
    }
  }

  lemma CapitalsChange(lower: string -> string, c: char)
    requires LowersCase(lower) && IsUpper(c)
    ensures !Stays(lower, c)
  {
    assert Lower([c])[0] != c;
  }

  lemma {:induction false} MarkedCharacters(s: string)
    ensures forall c :: c in MarkCapitals(s) ==> c in s || c == '_'
    ensures forall c :: c in s ==> c in MarkCapitals(s)
  {
    if s != [] {
      MarkedCharacters(s[1..]);
      assert s == [s[0]] + s[1..];
    }
  }

  lemma {:induction false} CamelCharacters(t: string)
    ensures forall c :: c in SnakeToCamel(t) ==> c in t || IsUpper(c)
  {
    if t == [] {
    } else if |t| >= 2 && t[0] == '_' && IsLower(t[1]) {
      CamelCharacters(t[2..]);
    } else {
      CamelCharacters(t[1..]);
    }
  }

  /** Lowering marked text is plain ASCII lowering when ASCII capitals are all there is to lower. */
  lemma LowerMarked(lower: string -> string, s: string)
    requires LowersCase(lower) && forall c :: c in s ==> IsUpper(c) || Stays(lower, c)
    ensures lower(MarkCapitals(s)) == Lower(MarkCapitals(s))
  {
    MarkedCharacters(s);
  }

  /** Names in snake_case are in lower case. */
  lemma SnakeIsLower(lower: string -> string, s: string)
    requires LowersCase(lower)
    ensures forall c :: c in CamelToSnake(lower, s) ==> Stays(lower, c)
  {
    assert forall c :: c in CamelToSnake(lower, s) ==> c in lower(MarkCapitals(s));
  }

  /** Marking adds an underscore for each capital, and going back takes it away again. */
  lemma {:induction false} MarkedLength(s: string)
    ensures |SnakeToCamel(Lower(MarkCapitals(s)))| <= |s|
  {
    if s != [] {
      LowerCons(s);
      var all, rest := Lower(MarkCapitals(s)), Lower(MarkCapitals(s[1..]));
      MarkedLength(s[1..]);
      if IsUpper(s[0]) {
        assert all[2..] == rest;
      } else {
        assert all[1..] == rest;
        TailLength(all);
      }
    }
  }

  lemma TailLength(t: string)
    requires t != []
    ensures |SnakeToCamel(t)| <= 1 + |SnakeToCamel(t[1..])|
  {
    if |t| >= 2 && t[0] == '_' && IsLower(t[1]) {
      assert t[1..][1..] == t[2..];
    }
  }

  /** The same for names whose only capitals are ASCII. */
  lemma AsciiCamelRoundTrip(s: string)
    ensures SnakeToCamel(DropUnderscore(Lower(MarkCapitals(s)))) == s <==>
            !HasMarkedLower(s) && (s != [] ==> !IsUpper(s[0]) && s[0] != '_')
  {
    CamelOfMarked(s);
    if s != [] {
      LowerCons(s);
      var all := Lower(MarkCapitals(s));
      if IsUpper(s[0]) {
        var t := DropUnderscore(all);
        assert t == all[1..] && t[0] == ToLower(s[0]);
        assert SnakeToCamel(t)[0] == t[0];
      } else if s[0] == '_' {
        assert DropUnderscore(all) == Lower(MarkCapitals(s[1..]));
        MarkedLength(s[1..]);
      }
    }
  }

  /** Going to snake_case and back is the identity on exactly the camel names. */
  lemma CamelRoundTrip(lower: string -> string, s: string)
    requires LowersCase(lower)
    ensures SnakeToCamel(CamelToSnake(lower, s)) == s <==> CamelName(lower, s)
  {
    if forall c :: c in s ==> IsUpper(c) || Stays(lower, c) {
      LowerMarked(lower, s);
      AsciiCamelRoundTrip(s);
    } else {
      SnakeIsLower(lower, s);
      CamelCharacters(CamelToSnake(lower, s));
    }
  }

  // ---------- snake -> camel -> snake ----------

  lemma {:induction false} MarkedOfCamel(t: string)
    requires forall i :: 0 <= i < |t| ==> !IsUpper(t[i])
    ensures Lower(MarkCapitals(SnakeToCamel(t))) == t
  {
    if t != [] {
      var c := SnakeToCamel(t);
      LowerCons(c);
      if |t| >= 2 && t[0] == '_' && IsLower(t[1]) {
        MarkedOfCamel(t[2..]);
        assert c[1..] == SnakeToCamel(t[2..]);
        assert t == ['_', t[1]] + t[2..];
      } else {
        MarkedOfCamel(t[1..]);
        assert c[1..] == SnakeToCamel(t[1..]);
        assert t == [t[0]] + t[1..];
      }
    }
  }

  /** Going to camelCase and back is the identity on exactly the snake names. */
  lemma SnakeRoundTrip(lower: string -> string, t: string)
    requires LowersCase(lower)
    ensures CamelToSnake(lower, SnakeToCamel(t)) == t <==> SnakeName(lower, t)
  {
    SnakeIsLower(lower, SnakeToCamel(t));
    if forall c :: c in t ==> Stays(lower, c) {
      forall i | 0 <= i < |t| ensures !IsUpper(t[i]) {
        if IsUpper(t[i]) { CapitalsChange(lower, t[i]); }
      }
      CamelCharacters(t);
      LowerMarked(lower, SnakeToCamel(t));
      MarkedOfCamel(t);
    }
  }
}

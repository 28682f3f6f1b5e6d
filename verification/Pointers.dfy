/** JSON pointers: parsing, printing and array indices (sections 3 and 4 of
    RFC 6901).  A pointer is its sequence of unescaped reference tokens. */
module Pointers {
  import opened Outcomes
  import opened Text
  import opened Escaping
  import Values

  type Pointer = seq<string>

  // ----- printing

  /** The fold of `to_string`. */
  function Accumulate(a: string, ptr: Pointer): string
    decreases |ptr|
  {
    if ptr == [] then a else Accumulate(a + "/" + Escape(ptr[0]), ptr[1..])
  }

  function ToString(ptr: Pointer): string { Accumulate("", ptr) }

  function Print(ptr: Pointer): string {
    if ptr == [] then "" else "/" + Escape(ptr[0]) + Print(ptr[1..])
  }

  lemma {:induction false} AccumulateIsPrint(a: string, ptr: Pointer)
    ensures Accumulate(a, ptr) == a + Print(ptr)
    decreases |ptr|
  {
    if ptr == [] {
      assert a + "" == a;
    } else {
      AccumulateIsPrint(a + "/" + Escape(ptr[0]), ptr[1..]);
      assert (a + "/" + Escape(ptr[0])) + Print(ptr[1..]) == a + ("/" + Escape(ptr[0]) + Print(ptr[1..]));
    }
  }

  /** `to_string` prints the tokens one after the other. */
  lemma ToStringIsPrint(ptr: Pointer)
    ensures ToString(ptr) == Print(ptr)
  {
    AccumulateIsPrint("", ptr);
    assert "" + Print(ptr) == Print(ptr);
  }

  lemma PrintCons(token: string, tail: Pointer)
    ensures Print([token] + tail) == "/" + Escape(token) + Print(tail)
  {
    assert ([token] + tail)[1..] == tail;
  }

  lemma ConcatAssociative(x: string, y: string, z: string)
    ensures x + (y + z) == (x + y) + z
  {
  }

  lemma {:induction false} PrintAppend(p: Pointer, q: Pointer)
    ensures Print(p + q) == Print(p) + Print(q)
  {
    if p == [] {
      assert p + q == q;
    } else {
      hide Print, Escape;
      var t, r := p[0], p[1..];
      PrintAppend(r, q);
      assert p + q == [t] + (r + q) && p == [t] + r;
      PrintCons(t, r + q);
      PrintCons(t, r);
      ConcatAssociative("/" + Escape(t), Print(r), Print(q));
    }
  }

  // ----- parsing

  /** `find_first_of(c, from)`, with the length of `s` standing for `npos`. */
  function FindFirst(s: string, c: char, from: nat): (i: nat)
    requires from <= |s|
    ensures from <= i <= |s| && c !in s[from..i] && (i < |s| ==> s[i] == c)
    decreases |s| - from
  {
    if from == |s| then from
    else if s[from] == c then from
    else
      var i := FindFirst(s, c, from + 1);
      assert s[from..i] == [s[from]] + s[from + 1..i];
      i
  }

  /** The tokens of a text that follows a slash. */
  function Tokens(s: string): Result<Pointer>
    decreases |s|
  {
    var slash := FindFirst(s, '/', 0);
    if !WellEscaped(s[..slash]) then Err(ParseError(108))
    else if slash == |s| then Ok([Unescape(s[..slash])])
    else
      var rest :- Tokens(s[slash + 1..]);
      Ok([Unescape(s[..slash])] + rest)
  }

  function Parse(s: string): Result<Pointer> {
    if s == "" then Ok([])
    else if s[0] != '/' then Err(ParseError(107))
    else Tokens(s[1..])
  }

  lemma {:induction false} FirstIsUnique(s: string, c: char, from: nat, i: nat)
    requires from <= i <= |s| && c !in s[from..i] && (i < |s| ==> s[i] == c)
    ensures FindFirst(s, c, from) == i
    decreases i - from
  {
    if from < i {
      assert s[from] == s[from..i][0] && s[from + 1..i] == s[from..i][1..];
      FirstIsUnique(s, c, from + 1, i);
    }
  }

  lemma FindFirstShift(s: string, c: char, from: nat)
    requires from <= |s|
    ensures FindFirst(s, c, from) == from + FindFirst(s[from..], c, 0)
  {
    var k := FindFirst(s[from..], c, 0);
    assert s[from..][0..k] == s[from..from + k];
    FirstIsUnique(s, c, from, from + k);
  }

  lemma TokensOfOne(token: string)
    requires '/' !in token
    ensures Tokens(token) == if WellEscaped(token) then Ok([Unescape(token)]) else Err(ParseError(108))
  {
    FirstIsUnique(token, '/', 0, |token|);
    assert token[..|token|] == token;
  }

  /** What a token in front of the tokens `rest` makes of them. */
  function Prepend(token: string, rest: Result<Pointer>): Result<Pointer> {
    if !WellEscaped(token) then Err(ParseError(108))
    else if rest.Err? then rest
    else Ok([Unescape(token)] + rest.value)
  }

  lemma TokensOfMore(token: string, rest: string)
    requires '/' !in token
    ensures Tokens(token + "/" + rest) == Prepend(token, Tokens(rest))
  {
    var s := token + "/" + rest;
    assert s[0..|token|] == token && s[|token| + 1..] == rest;
    FirstIsUnique(s, '/', 0, |token|);
  }

  /** The check that every tilde starts an escape sequence. */
  method CheckEscapes(token: string) returns (ok: bool)
    ensures ok <==> WellEscaped(token)
  {
    var pos := FindFirst(token, '~', 0);
    while pos != |token|
      invariant 0 <= pos <= |token| && (pos < |token| ==> token[pos] == '~')
      invariant forall i | 0 <= i < pos && token[i] == '~' ::
                  i + 1 < |token| && (token[i + 1] == '0' || token[i + 1] == '1')
      decreases |token| - pos
    {
      if pos == |token| - 1 || (token[pos + 1] != '0' && token[pos + 1] != '1') {
        return false;
      }
      var next := FindFirst(token, '~', pos + 1);
      forall i | pos < i < next ensures token[i] != '~' {
        assert token[i] == token[pos + 1..next][i - pos - 1];
      }
      pos := next;
    }
    ok := true;
  }

  /** `whole` is what remains to be parsed, `rest`, behind the tokens `done`. */
  ghost predicate Continues(done: Pointer, rest: Result<Pointer>, whole: Result<Pointer>) {
    whole == if rest.Ok? then Ok(done + rest.value) else rest
  }

  lemma ContinueWith(done: Pointer, token: string, rest: Result<Pointer>, whole: Result<Pointer>)
    requires Continues(done, Prepend(token, rest), whole)
    ensures WellEscaped(token) ==> Continues(done + [Unescape(token)], rest, whole)
    ensures !WellEscaped(token) ==> whole == Err(ParseError(108))
  {
    if WellEscaped(token) && rest.Ok? {
      assert done + ([Unescape(token)] + rest.value) == (done + [Unescape(token)]) + rest.value;
    }
  }

  lemma SplitAtSlash(s: string, start: nat, slash: nat)
    requires start <= slash < |s| && s[slash] == '/'
    ensures s[start..] == s[start..slash] + "/" + s[slash + 1..]
  {
  }

  /** One token of the scan in `split`, from `start` up to `slash`. */
  lemma ScanToken(s: string, start: nat, slash: nat, done: Pointer, whole: Result<Pointer>)
    requires start <= |s| && slash == FindFirst(s, '/', start)
    requires Continues(done, Tokens(s[start..]), whole)
    ensures !WellEscaped(s[start..slash]) ==> whole == Err(ParseError(108))
    ensures WellEscaped(s[start..slash]) ==>
              var done' := done + [Unescape(s[start..slash])];
              if slash == |s| then whole == Ok(done') else Continues(done', Tokens(s[slash + 1..]), whole)
  {
    hide Tokens, WellEscaped, Unescape;
    var token := s[start..slash];
    if slash == |s| {
      assert s[start..] == token;
      TokensOfOne(token);
    } else {
      var rest := s[slash + 1..];
      SplitAtSlash(s, start, slash);
      TokensOfMore(token, rest);
      ContinueWith(done, token, Tokens(rest), whole);
    }
  }

  /** `split`: the constructor of a pointer from its string form. */
  method Split(s: string) returns (r: Result<Pointer>)
    ensures r == Parse(s)
  {
    var result: Pointer := [];
    if s == "" { return Ok(result); }
    if s[0] != '/' { return Err(ParseError(107)); }
    var slash, start := FindFirst(s, '/', 1), 1;
    assert Continues([], Tokens(s[1..]), Parse(s)) by {
      if Tokens(s[1..]).Ok? { assert [] + Tokens(s[1..]).value == Tokens(s[1..]).value; }
    }
    while start != 0
      invariant 0 <= start <= |s| && start <= slash <= |s|
      invariant start != 0 ==> slash == FindFirst(s, '/', start)
      invariant start != 0 ==> Continues(result, Tokens(s[start..]), Parse(s))
      invariant start == 0 ==> Parse(s) == Ok(result)
      decreases if start == 0 then 0 else |s| + 1 - start
    {
      ScanToken(s, start, slash, result, Parse(s));
      var token := s[start..slash];
      var ok := CheckEscapes(token);
      if !ok { return Err(ParseError(108)); }
      UnescapeInTwoPasses(token);
      token := UnescapeToken(token);
      result := result + [token];
      start := if slash == |s| then 0 else slash + 1;
      slash := FindFirst(s, '/', start);
    }
    r := Ok(result);
  }

  // ----- printing and parsing are inverse

  lemma TokensOfEscaped(token: string, rest: string, more: Pointer)
    ensures Tokens(Escape(token)) == Ok([token])
    ensures Tokens(rest) == Ok(more) ==> Tokens(Escape(token) + "/" + rest) == Ok([token] + more)
  {
    EscapeIsWellEscaped(token);
    UnescapeEscape(token);
    TokensOfOne(Escape(token));
    TokensOfMore(Escape(token), rest);
  }

  lemma PrintAfter(e: string, second: string, more: Pointer)
    ensures e + Print([second] + more) == e + "/" + (Escape(second) + Print(more))
  {
    PrintCons(second, more);
  }

  lemma TokensOfPrintStep(token: string, second: string, more: Pointer)
    requires Tokens(Escape(second) + Print(more)) == Ok([second] + more)
    ensures Tokens(Escape(token) + Print([second] + more)) == Ok([token] + ([second] + more))
  {
    TokensOfEscaped(token, Escape(second) + Print(more), [second] + more);
    PrintAfter(Escape(token), second, more);
  }

  lemma {:induction false} TokensOfPrint(token: string, tail: Pointer)
    ensures Tokens(Escape(token) + Print(tail)) == Ok([token] + tail)
    decreases |tail|
  {
    if tail == [] {
      TokensOfEscaped(token, "", []);
      assert Escape(token) + "" == Escape(token) && [token] + tail == [token];
    } else {
      TokensOfPrint(tail[0], tail[1..]);
      TokensOfPrintStep(token, tail[0], tail[1..]);
      assert tail == [tail[0]] + tail[1..];
    }
  }

  lemma ParseSlash(rest: string)
    ensures Parse("/" + rest) == Tokens(rest)
  {
    assert ("/" + rest)[1..] == rest;
  }

  lemma ParsePrintCons(token: string, tail: Pointer)
    ensures Parse(Print([token] + tail)) == Ok([token] + tail)
  {
    TokensOfPrint(token, tail);
    ParseSlash(Escape(token) + Print(tail));
    PrintAfter("", token, tail);
    assert "" + Print([token] + tail) == Print([token] + tail);
    assert "" + "/" + (Escape(token) + Print(tail)) == "/" + (Escape(token) + Print(tail));
  }

  /** A printed pointer is read back unchanged. */
  lemma ParsePrint(ptr: Pointer)
    ensures Parse(Print(ptr)) == Ok(ptr)
  {
    if ptr != [] {
      ParsePrintCons(ptr[0], ptr[1..]);
      assert ptr == [ptr[0]] + ptr[1..];
    }
  }

  lemma PrintOfTokens(token: string, rest: string, more: Pointer)
    requires WellEscaped(token) && '/' !in token
    ensures Print([Unescape(token)]) == "/" + token
    ensures Print(more) == "/" + rest ==> Print([Unescape(token)] + more) == "/" + (token + "/" + rest)
  {
    EscapeUnescape(token);
    PrintCons(Unescape(token), []);
    PrintCons(Unescape(token), more);
    assert [Unescape(token)] + [] == [Unescape(token)];
  }

  lemma {:induction false} PrintTokens(s: string)
    requires Tokens(s).Ok?
    ensures Print(Tokens(s).value) == "/" + s
    decreases |s|
  {
    var slash := FindFirst(s, '/', 0);
    var token := s[..slash];
    assert s[0..slash] == token;
    if slash == |s| {
      assert token == s;
      PrintOfTokens(token, "", []);
    } else {
      var rest := s[slash + 1..];
      PrintTokens(rest);
      PrintOfTokens(token, rest, Tokens(rest).value);
      SplitAtSlash(s, 0, slash);
    }
  }

  lemma PrintParse(s: string)
    requires Parse(s).Ok?
    ensures Print(Parse(s).value) == s
  {
    if s != "" { PrintTokens(s[1..]); }
  }

  lemma PrintInjective(p: Pointer, q: Pointer)
    requires Print(p) == Print(q)
    ensures p == q
  {
    ParsePrint(p); ParsePrint(q);
  }

  // ----- the grammar of section 3 of RFC 6901

  /** reference-token = *( unescaped / escaped ) */
  predicate ReferenceToken(s: string) {
    || s == ""
    || (s[0] != '/' && s[0] != '~' && ReferenceToken(s[1..]))
    || (|s| >= 2 && s[0] == '~' && (s[1] == '0' || s[1] == '1') && ReferenceToken(s[2..]))
  }

  /** json-pointer = *( "/" reference-token ) */
  predicate JsonPointer(s: string)
    decreases |s|
  {
    || s == ""
    || (s[0] == '/' && exists n | 1 <= n <= |s| :: ReferenceToken(s[1..n]) && JsonPointer(s[n..]))
  }

  lemma {:induction false} ReferenceTokenIsWellEscaped(s: string)
    ensures ReferenceToken(s) <==> WellEscaped(s) && '/' !in s
  {
    if s == "" {
    } else if s[0] == '~' {
      if |s| >= 2 {
        ReferenceTokenIsWellEscaped(s[2..]);
        assert s == [s[0], s[1]] + s[2..];
        if ReferenceToken(s) {
          forall i | 0 <= i < |s| && s[i] == '~' ensures i + 1 < |s| && (s[i + 1] == '0' || s[i + 1] == '1') {
            if i >= 2 { assert s[2..][i - 2] == '~'; }
          }
        } else if WellEscaped(s) {
          assert WellEscaped(s[2..]);
        }
      }
    } else {
      ReferenceTokenIsWellEscaped(s[1..]);
      assert s == [s[0]] + s[1..];
      if ReferenceToken(s) {
        forall i | 0 <= i < |s| && s[i] == '~' ensures i + 1 < |s| && (s[i + 1] == '0' || s[i + 1] == '1') {
          assert s[1..][i - 1] == '~';
        }
      } else if WellEscaped(s) {
        assert WellEscaped(s[1..]);
      }
    }
  }

  /** The strings `split` accepts are the pointers of the grammar. */
  lemma {:induction false} ParseAcceptsGrammar(s: string)
    ensures Parse(s).Ok? <==> JsonPointer(s)
    decreases |s|
  {
    if s != "" && s[0] == '/' {
      var slash := FindFirst(s, '/', 1);
      FindFirstShift(s, '/', 1);
      assert s[1..][..slash - 1] == s[1..slash];
      ReferenceTokenIsWellEscaped(s[1..slash]);
      if slash < |s| { assert s[1..][slash..] == s[slash + 1..] == s[slash..][1..]; }
      ParseAcceptsGrammar(s[slash..]);
      if Parse(s).Ok? {
        assert ReferenceToken(s[1..slash]) && JsonPointer(s[slash..]);
      }
      if JsonPointer(s) {
        var n :| 1 <= n <= |s| && ReferenceToken(s[1..n]) && JsonPointer(s[n..]);
        ReferenceTokenIsWellEscaped(s[1..n]);
        assert n < |s| ==> s[n] == s[n..][0];
        FirstIsUnique(s, '/', 1, n);
      }
    }
  }

  // ----- array indices

  /** `array_index`: the index a token denotes, or the exception. */
  function ArrayIndex(s: string): Result<nat> {
    if |s| > 1 && s[0] == '0' then Err(ParseError(106))
    else if |s| > 1 && !('1' <= s[0] <= '9') then Err(ParseError(109))
    else if s == "" || !AllDigits(s) || Numeral(s) >= Values.TWO_TO_THE_64 then Err(OutOfRange(404))
    else if Numeral(s) >= Values.SIZE_MAX then Err(OutOfRange(410))
    else Ok(Numeral(s))
  }

  /** A token denotes index `i` exactly when it is the numeral of `i`. */
  lemma ArrayIndexIsDigits(s: string, i: nat)
    ensures ArrayIndex(s) == Ok(i) <==> s == Digits(i) && i < Values.SIZE_MAX
  {
    NumeralOfDigits(i);
    if ArrayIndex(s) == Ok(i) { DigitsOfNumeral(s); }
  }

  /** The exceptions of `array_index`: 106 for a leading zero, 109 for a longer token that
      starts with no digit, 410 for the one numeral that fits 64 bits but not the type,
      and 404 for everything else that is no index. */
  lemma ArrayIndexThrows(s: string)
    ensures ArrayIndex(s) == Err(ParseError(106)) <==> |s| > 1 && s[0] == '0'
    ensures ArrayIndex(s) == Err(ParseError(109)) <==> |s| > 1 && !IsDigit(s[0])
    ensures ArrayIndex(s) == Err(OutOfRange(410)) <==> s == Digits(Values.SIZE_MAX)
    ensures ArrayIndex(s) == Err(OutOfRange(404)) <==>
            (|s| > 1 ==> '1' <= s[0] <= '9') && (!Canonical(s) || Numeral(s) >= Values.TWO_TO_THE_64)
    ensures ArrayIndex(s).Err? ==>
              ArrayIndex(s).error in {ParseError(106), ParseError(109), OutOfRange(404), OutOfRange(410)}
  {
    hide Digits, Numeral;
    NumeralOfDigits(Values.SIZE_MAX);
    if Canonical(s) { DigitsOfNumeral(s); }
  }

  lemma {:induction false} TokensThrow(s: string)
    ensures Tokens(s).Err? ==> Tokens(s) == Err(ParseError(108))
    decreases |s|
  {
    var slash := FindFirst(s, '/', 0);
    if slash < |s| { TokensThrow(s[slash + 1..]); }
  }

  /** The exceptions of the constructor: 107 without a leading slash, 108 for every other
      string that is outside the grammar. */
  lemma ParseThrows(s: string)
    ensures Parse(s) == Err(ParseError(107)) <==> s != "" && s[0] != '/'
    ensures Parse(s) == Err(ParseError(108)) <==> s != "" && s[0] == '/' && !JsonPointer(s)
  {
    ParseAcceptsGrammar(s);
    if s != "" { TokensThrow(s[1..]); }
  }
}

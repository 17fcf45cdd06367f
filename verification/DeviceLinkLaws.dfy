/** Codes are drawn without bias, and every spelling of a code reads as that code. */
module DeviceLinkLaws {
  import opened Results
  import opened DeviceLink

  // ----- no bias

  /** The accepted bytes that give symbol `r`. */
  function BytesFor(limit: nat, size: nat, r: nat): set<nat>
    requires size > 0
  {
    set b: nat | b < limit && b % size == r
  }

  lemma {:induction false} OneMoreBlock(q: nat, size: nat, r: nat)
    requires r < size
    ensures BytesFor((q + 1) * size, size, r) == BytesFor(q * size, size, r) + {q * size + r}
    ensures q * size + r !in BytesFor(q * size, size, r)
  {
    assert (q + 1) * size == q * size + size;
    Residue(q, size, r);
    forall b: nat | q * size <= b < q * size + size && b % size == r ensures b == q * size + r {
      Residue(q, size, b - q * size);
    }
  }

  lemma {:induction false} Residue(q: nat, size: nat, r: nat)
    requires r < size
    ensures (q * size + r) % size == r
  {
    if q > 0 {
      Residue(q - 1, size, r);
      var x := (q - 1) * size + r;
      assert q * size + r == x + size;
      ModShift(x, size);
    }
  }

  lemma {:induction false} ModShift(x: nat, size: nat)
    requires size > 0
    ensures (x + size) % size == x % size
  {
    var q := x / size;
    assert x + size == (q + 1) * size + x % size;
    assert 0 <= x % size < size;
    Quotient(x + size, size, q + 1, x % size);
  }

  lemma {:induction false} Quotient(x: nat, size: nat, q: nat, r: nat)
    requires size > 0 && r < size && x == q * size + r
    ensures x % size == r
  {
    var p, s := x / size, x % size;
    assert x == p * size + s;
    if p != q { MultipleTooLarge(p - q, size, r - s); }
  }

  lemma {:induction false} MultipleTooLarge(d: int, size: nat, x: int)
    requires d != 0 && 0 < size + x && x < size
    ensures d * size != x
  {
    if d > 0 { Product(d - 1, size); } else { Product(-d - 1, size); }
  }

  lemma {:induction false} Product(d: nat, size: nat)
    ensures d * size >= 0
  {
    if d > 0 { Product(d - 1, size); }
  }

  lemma {:induction false} BlocksCounted(q: nat, size: nat, r: nat)
    requires r < size
    ensures |BytesFor(q * size, size, r)| == q
  {
    if q == 0 {
      assert BytesFor(0, size, r) == {};
    } else {
      BlocksCounted(q - 1, size, r);
      OneMoreBlock(q - 1, size, r);
    }
  }

  /** For an alphabet of any size up to 256, each symbol has exactly `256 / size` accepted bytes. */
  lemma {:induction false} NoBias(size: nat, r: nat)
    requires 1 <= size <= 256 && r < size
    ensures |BytesFor(Threshold(size), size, r)| == 256 / size
  {
    assert Threshold(size) == 256 / size * size;
    BlocksCounted(256 / size, size, r);
  }

  /** The alphabet of codes rejects no byte. */
  lemma {:induction false} NothingRejected()
    ensures Threshold(|ALPHABET|) == 256
  {
  }

  // ----- the alphabet

  lemma {:induction false} AlphabetNeighbours()
    ensures |ALPHABET| == 32 && forall i :: 0 <= i < 31 ==> ALPHABET[i] < ALPHABET[i + 1]
  {
  }

  lemma {:induction false} AlphabetAscends(i: nat, j: nat)
    requires i < j < 32
    ensures ALPHABET[i] < ALPHABET[j]
  {
    hide ALPHABET;
    AlphabetNeighbours();
    if i < j - 1 { AlphabetAscends(i, j - 1); }
  }

  /** Where a character of the pattern stands in the alphabet. */
  function Position(c: char): nat
    requires CodeChar(c)
  {
    var n := c as int;
    if c <= '9' then n - 48
    else
      n - 55 - (if c > 'I' then 1 else 0) - (if c > 'L' then 1 else 0)
      - (if c > 'O' then 1 else 0) - (if c > 'U' then 1 else 0)
  }

  lemma {:induction false} PositionOf(c: char)
    requires CodeChar(c)
    ensures Position(c) < 32 && ALPHABET[Position(c)] == c
  {
  }

  lemma {:induction false} SymbolsMatch(i: nat)
    requires i < 32
    ensures CodeChar(ALPHABET[i])
  {
  }

  /** The pattern accepts exactly the strings of eight characters of the alphabet. */
  lemma {:induction false} PatternIsAlphabet(s: string)
    ensures CodePattern(s) <==> |s| == 8 && forall i :: 0 <= i < |s| ==> s[i] in ALPHABET
  {
    hide CodeChar, ALPHABET;
    AlphabetNeighbours();
    forall c: char ensures c in ALPHABET <==> CodeChar(c) {
      if CodeChar(c) { PositionOf(c); }
      if c in ALPHABET {
        var i :| 0 <= i < 32 && ALPHABET[i] == c;
        SymbolsMatch(i);
      }
    }
  }

  lemma {:induction false} CodesFitPattern(batch: seq<nat>)
    requires |batch| == CODE_LENGTH
    ensures CodePattern(CodeOf(batch))
  {
    hide CodeChar, ALPHABET;
    AlphabetNeighbours();
    forall i | 0 <= i < |batch| ensures CodeChar(CodeOf(batch)[i]) { SymbolsMatch(batch[i] % 32); }
  }

  // ----- every code is equally likely

  function Power(base: nat, n: nat): nat { if n == 0 then 1 else base * Power(base, n - 1) }

  function Prefixed(firsts: set<nat>, rests: set<seq<nat>>): set<seq<nat>>
  {
    set b, rest | b in firsts && rest in rests :: [b] + rest
  }

  lemma {:induction false} PrefixedMembers(firsts: set<nat>, rests: set<seq<nat>>, x: seq<nat>)
    ensures x in Prefixed(firsts, rests) <==> x != [] && x[0] in firsts && x[1..] in rests
  {
    if x != [] { assert x == [x[0]] + x[1..]; }
    if x in Prefixed(firsts, rests) {
      var b, rest :| b in firsts && rest in rests && x == [b] + rest;
      assert x[1..] == rest;
    }
  }

  lemma {:induction false} PrefixedByOne(b: nat, rests: set<seq<nat>>)
    ensures |Prefixed({b}, rests)| == |rests|
    decreases |rests|
  {
    if rests == {} {
      assert Prefixed({b}, rests) == {};
    } else {
      var rest :| rest in rests;
      PrefixedByOne(b, rests - {rest});
      assert Prefixed({b}, rests) == Prefixed({b}, rests - {rest}) + {[b] + rest} by {
        forall x ensures x in Prefixed({b}, rests) <==> x in Prefixed({b}, rests - {rest}) || x == [b] + rest {
          PrefixedMembers({b}, rests, x);
          PrefixedMembers({b}, rests - {rest}, x);
          if x != [] && x[0] == b && x[1..] == rest { assert x == [b] + rest; }
        }
      }
      PrefixedMembers({b}, rests - {rest}, [b] + rest);
    }
  }

  lemma {:induction false} PrefixedCount(firsts: set<nat>, rests: set<seq<nat>>)
    ensures |Prefixed(firsts, rests)| == |firsts| * |rests|
    decreases |firsts|
  {
    if firsts == {} {
      assert Prefixed(firsts, rests) == {};
    } else {
      hide Prefixed;
      var b :| b in firsts;
      var fewer := firsts - {b};
      PrefixedCount(fewer, rests);
      PrefixedByOne(b, rests);
      PrefixedSplit(b, fewer, rests);
      assert firsts == fewer + {b};
      OneMore(|fewer|, |rests|);
    }
  }

  lemma {:induction false} OneMore(m: nat, n: nat)
    ensures (m + 1) * n == m * n + n
  {
  }

  lemma {:induction false} PrefixedSplit(b: nat, fewer: set<nat>, rests: set<seq<nat>>)
    requires b !in fewer
    ensures |Prefixed(fewer + {b}, rests)| == |Prefixed(fewer, rests)| + |Prefixed({b}, rests)|
  {
    forall x ensures x in Prefixed(fewer + {b}, rests) <==> x in Prefixed(fewer, rests) || x in Prefixed({b}, rests)
             ensures !(x in Prefixed(fewer, rests) && x in Prefixed({b}, rests)) {
      PrefixedMembers(fewer + {b}, rests, x);
      PrefixedMembers(fewer, rests, x);
      PrefixedMembers({b}, rests, x);
    }
    assert Prefixed(fewer + {b}, rests) == Prefixed(fewer, rests) + Prefixed({b}, rests);
    assert Prefixed(fewer, rests) * Prefixed({b}, rests) == {};
  }

  /** All byte batches that draw a given code. */
  function Batches(code: string): set<seq<nat>>
    requires forall i :: 0 <= i < |code| ==> CodeChar(code[i])
  {
    if code == "" then {[]} else Prefixed(BytesFor(256, 32, Position(code[0])), Batches(code[1..]))
  }

  lemma {:induction false} SymbolOfByte(b: nat, c: char)
    requires CodeChar(c)
    ensures ALPHABET[b % 32] == c <==> b % 32 == Position(c)
  {
    hide ALPHABET, CodeChar, Position;
    AlphabetNeighbours();
    PositionOf(c);
    var i, j := b % 32, Position(c);
    if i < j { AlphabetAscends(i, j); }
    if j < i { AlphabetAscends(j, i); }
  }

  lemma {:induction false} BatchesDraw(code: string, batch: seq<nat>)
    requires forall i :: 0 <= i < |code| ==> CodeChar(code[i])
    ensures batch in Batches(code) <==> Bytes(batch) && CodeOf(batch) == code
  {
    hide ALPHABET, CodeChar, Position, Prefixed;
    AlphabetNeighbours();
    if code == "" {
      if CodeOf(batch) == code { assert |batch| == 0; }
    } else {
      PrefixedMembers(BytesFor(256, 32, Position(code[0])), Batches(code[1..]), batch);
      if batch != [] {
        SymbolOfByte(batch[0], code[0]);
        BatchesDraw(code[1..], batch[1..]);
        FirstAndRest(batch, code);
      } else {
        assert CodeOf(batch) == "";
      }
    }
  }

  lemma {:induction false} FirstAndRest(batch: seq<nat>, code: string)
    requires batch != [] && code != ""
    ensures CodeOf(batch) == code <==> ALPHABET[batch[0] % 32] == code[0] && CodeOf(batch[1..]) == code[1..]
    ensures Bytes(batch) <==> batch[0] < 256 && Bytes(batch[1..])
  {
    hide ALPHABET;
    AlphabetNeighbours();
    assert CodeOf(batch) == [ALPHABET[batch[0] % 32]] + CodeOf(batch[1..]);
    assert code == [code[0]] + code[1..];
    assert batch == [batch[0]] + batch[1..];
    if CodeOf(batch) == code { assert CodeOf(batch)[1..] == CodeOf(batch[1..]); }
  }

  lemma {:induction false} BatchesCounted(code: string)
    requires forall i :: 0 <= i < |code| ==> CodeChar(code[i])
    ensures |Batches(code)| == Power(8, |code|)
  {
    hide CodeChar, Position, Prefixed, BytesFor, ALPHABET;
    if code != "" {
      PositionOf(code[0]);
      NoBias(32, Position(code[0]));
      NothingRejected();
      AlphabetNeighbours();
      PrefixedCount(BytesFor(256, 32, Position(code[0])), Batches(code[1..]));
      BatchesCounted(code[1..]);
    }
  }

  /** Every code of the pattern is drawn by exactly 8 to the 8th of the byte batches: all are equally
      likely, and every other string is never drawn. */
  lemma {:induction false} CodesUniform(code: string)
    requires CodePattern(code)
    ensures |Batches(code)| == Power(8, 8)
    ensures forall batch :: batch in Batches(code) <==> Bytes(batch) && CodeOf(batch) == code
  {
    hide CodeChar, Batches, Power;
    BatchesCounted(code);
    forall batch ensures batch in Batches(code) <==> Bytes(batch) && CodeOf(batch) == code { BatchesDraw(code, batch); }
  }

  // ----- spellings

  /** How one upper-case character is read. */
  function ReadChar(c: char): string
  {
    if Separator(c) then "" else if c in "IL" then "1" else if c == 'O' then "0" else if c == 'U' then "V" else [c]
  }

  function ReadEach(s: string): string
  {
    if s == "" then "" else ReadChar(s[0]) + ReadEach(s[1..])
  }

  /** Dropping and the three replacements together read character by character. */
  lemma {:induction false} ReadsEach(s: string)
    ensures Replace(Replace(Replace(DropSeparators(s), "IL", '1'), "O", '0'), "U", 'V') == ReadEach(s)
  {
    hide Separator;
    if s != "" {
      ReadsEach(s[1..]);
      var rest := DropSeparators(s[1..]);
      if !Separator(s[0]) {
        assert DropSeparators(s) == [s[0]] + rest;
        ReadFirst(s[0], rest);
      } else {
        assert DropSeparators(s) == rest;
      }
    }
  }

  lemma {:induction false} ReadFirst(c: char, rest: string)
    requires !Separator(c)
    ensures Replace(Replace(Replace([c] + rest, "IL", '1'), "O", '0'), "U", 'V')
         == ReadChar(c) + Replace(Replace(Replace(rest, "IL", '1'), "O", '0'), "U", 'V')
  {
    hide Separator;
  }

  lemma {:induction false} CodeCharsRead(upper: Upper, c: char)
    requires UppersAscii(upper) && CodeChar(c)
    ensures upper(c) == [c] && ReadChar(c) == [c]
  {
  }

  /** What a person may type for a symbol of a code. */
  predicate LooksLike(typed: char, c: char)
  {
    || AsciiUpper(typed) == c
    || (c == '1' && typed in "iIlL") || (c == '0' && typed in "oO") || (c == 'V' && typed in "uU")
  }

  /** `s` spells `code`: spaces and dashes anywhere, and between them a look-alike for each symbol. A
      character beyond ASCII stands for what its upper case is read as: the long s for S, the dotless i
      for 1. */
  predicate Spells(upper: Upper, s: string, code: string)
  {
    if s == "" then code == ""
    else if !Ascii(s[0]) then
      var heard := ReadEach(upper(s[0]));
      heard <= code && Spells(upper, s[1..], code[|heard|..])
    else if Separator(s[0]) then Spells(upper, s[1..], code)
    else code != "" && LooksLike(s[0], code[0]) && Spells(upper, s[1..], code[1..])
  }

  lemma {:induction false} ReadOne(upper: Upper, typed: char)
    requires UppersAscii(upper) && Ascii(typed)
    ensures Separator(typed) ==> ReadEach(upper(typed)) == ""
    ensures !Separator(typed) ==> |ReadEach(upper(typed))| == 1
    ensures forall c :: CodeChar(c) && !Separator(typed) ==> (LooksLike(typed, c) <==> ReadEach(upper(typed)) == [c])
  {
    var u := AsciiUpper(typed);
    assert upper(typed) == [u];
    assert ReadEach([u]) == ReadChar(u) + ReadEach("");
    assert Separator(typed) <==> Separator(u);
    forall c | CodeChar(c) && !Separator(typed) ensures LooksLike(typed, c) <==> ReadChar(u) == [c] {
      ReadsLookAlike(typed, c);
    }
  }

  lemma {:induction false} ReadsLookAlike(typed: char, c: char)
    requires CodeChar(c) && !Separator(AsciiUpper(typed))
    ensures LooksLike(typed, c) <==> ReadChar(AsciiUpper(typed)) == [c]
  {
    hide Separator;
    var u := AsciiUpper(typed);
    assert u in "IL" <==> typed in "iIlL";
    assert u == 'O' <==> typed in "oO";
    assert u == 'U' <==> typed in "uU";
    assert "1"[0] == '1' && "0"[0] == '0' && "V"[0] == 'V';
  }

  lemma {:induction false} ReadConcat(s: string, t: string)
    ensures ReadEach(s + t) == ReadEach(s) + ReadEach(t)
  {
    hide ReadChar;
    if s == "" {
      assert s + t == t;
    } else {
      assert (s + t)[1..] == s[1..] + t;
      ReadConcat(s[1..], t);
    }
  }

  lemma {:induction false} SpellsExactly(upper: Upper, s: string, code: string)
    requires UppersAscii(upper) && forall i :: 0 <= i < |code| ==> CodeChar(code[i])
    ensures ReadEach(UpperCase(upper, s)) == code <==> Spells(upper, s, code)
    decreases |s|
  {
    hide Separator, ReadChar, CodeChar, LooksLike, AsciiUpper, ReadEach, Ascii;
    if s == "" {
      NothingRead(upper);
    } else {
      var first, rest := ReadEach(upper(s[0])), ReadEach(UpperCase(upper, s[1..]));
      ReadConcat(upper(s[0]), UpperCase(upper, s[1..]));
      SplitReading(first, rest, code);
      if Ascii(s[0]) { ReadOne(upper, s[0]); }
      if first <= code { SpellsExactly(upper, s[1..], code[|first|..]); }
      if Ascii(s[0]) && !Separator(s[0]) && code != "" { OneCharacter(first, code); }
    }
  }

  lemma {:induction false} NothingRead(upper: Upper)
    ensures ReadEach(UpperCase(upper, "")) == ""
  {
  }

  lemma {:induction false} SplitReading(first: string, rest: string, code: string)
    ensures first + rest == code <==> first <= code && rest == code[|first|..]
  {
    if first + rest == code { assert code[|first|..] == rest; }
  }

  lemma {:induction false} OneCharacter(first: string, code: string)
    requires |first| == 1 && code != ""
    ensures first <= code <==> first == [code[0]]
  {
  }

  /** A string is read as a code exactly when it spells it. */
  lemma {:induction false} ReadAsSpelled(upper: Upper, s: string, code: string)
    requires UppersAscii(upper) && CodePattern(code)
    ensures Normalize(upper, s) == Some(code) <==> Spells(upper, s, code)
  {
    hide UpperCase, DropSeparators, Replace, ReadEach, Spells, CodeChar, UppersAscii;
    ReadsEach(UpperCase(upper, s));
    SpellsExactly(upper, s, code);
  }

  /** So every spelling of a code has the code's digest. */
  lemma {:induction false} SpellingsHashAlike(upper: Upper, sha256: string -> string, s: string, code: string)
    requires UppersAscii(upper) && CodePattern(code) && Spells(upper, s, code)
    ensures Hash(upper, sha256, s) == Ok(sha256(code)) == Hash(upper, sha256, code)
  {
    hide Normalize, Spells, CodePattern, UppersAscii;
    ReadAsSpelled(upper, s, code);
    NormalForm(upper, code);
  }

  lemma {:induction false} CodeReadsItself(upper: Upper, s: string)
    requires UppersAscii(upper) && forall i :: 0 <= i < |s| ==> CodeChar(s[i])
    ensures ReadEach(UpperCase(upper, s)) == s
  {
    hide ReadChar, CodeChar, UppersAscii;
    if s != "" {
      CodeCharsRead(upper, s[0]);
      CodeReadsItself(upper, s[1..]);
      ReadConcat([s[0]], UpperCase(upper, s[1..]));
      assert ReadEach([s[0]]) == [s[0]] + ReadEach("");
      assert [s[0]] + s[1..] == s;
    }
  }

  /** Every code is its own normal form. */
  lemma {:induction false} NormalForm(upper: Upper, code: string)
    requires UppersAscii(upper) && CodePattern(code)
    ensures Normalize(upper, code) == Some(code)
  {
    hide UpperCase, DropSeparators, Replace, ReadEach, CodeChar, UppersAscii;
    ReadsEach(UpperCase(upper, code));
    CodeReadsItself(upper, code);
  }

  /** Normalising any input gives a code or nothing, and normalising again changes nothing. */
  lemma {:induction false} NormalizeIdempotent(upper: Upper, input: string)
    requires UppersAscii(upper) && Normalize(upper, input).Some?
    ensures var code := Normalize(upper, input).value; CodePattern(code) && Normalize(upper, code) == Some(code)
  {
    hide Cleaned, CodeChar, UppersAscii;
    NormalForm(upper, Normalize(upper, input).value);
  }

  /** A drawn code is read back as itself. */
  lemma {:induction false} DrawnCodesNormal(upper: Upper, batch: seq<nat>)
    requires UppersAscii(upper) && |batch| == CODE_LENGTH
    ensures Normalize(upper, CodeOf(batch)) == Some(CodeOf(batch))
  {
    hide CodePattern, CodeOf, Normalize, UppersAscii;
    CodesFitPattern(batch);
    NormalForm(upper, CodeOf(batch));
  }

  /** A code is written in digits and capitals other than I, L, O and U, and each byte drawn picks the
      symbol with as many symbols below it as the byte leaves modulo 32. */
  lemma {:induction false} DrawnExactly(batch: seq<nat>, i: nat)
    requires |batch| == 8 && i < 8
    ensures |CodeOf(batch)| == 8
    ensures ('0' <= CodeOf(batch)[i] <= '9' || 'A' <= CodeOf(batch)[i] <= 'Z') && CodeOf(batch)[i] !in "ILOU"
    ensures CodeOf(batch)[i] == "0123456789ABCDEFGHJKMNPQRSTVWXYZ"[batch[i] % 32]
  {
    hide CodeChar;
    SymbolsExactly(CodeOf(batch)[i]);
  }

  lemma {:induction false} SymbolsExactly(c: char)
    ensures c in ALPHABET <==> ('0' <= c <= '9' || 'A' <= c <= 'Z') && c !in "ILOU"
  {
    PatternIsAlphabet(seq(8, i => c));
    assert seq(8, i => c)[0] == c;
  }

  /** Formatting a reading gives its first and last four characters around a dash. */
  lemma {:induction false} FormatExactly(upper: Upper, input: string, code: string)
    requires UppersAscii(upper) && CodePattern(code) && Spells(upper, input, code)
    ensures |code| == 8
    ensures Format(upper, input) ==
            Ok([code[0], code[1], code[2], code[3], '-', code[4], code[5], code[6], code[7]])
  {
    hide Spells, CodeChar, UppersAscii, Normalize;
    ReadAsSpelled(upper, input, code);
    assert code[..4] + "-" + code[4..] == [code[0], code[1], code[2], code[3], '-', code[4], code[5], code[6], code[7]];
  }

  /** Formatting is refused exactly when reading is, and reading undoes it. */
  lemma {:induction false} FormatRoundTrip(upper: Upper, input: string)
    requires UppersAscii(upper)
    ensures Format(upper, input).Err? <==> Normalize(upper, input).None?
    ensures Format(upper, input).Ok? ==> Normalize(upper, Format(upper, input).value) == Normalize(upper, input)
  {
    hide Cleaned, CodeChar, UppersAscii;
    if Normalize(upper, input).Some? { DashIgnored(upper, Normalize(upper, input).value); }
  }

  lemma {:induction false} DashIgnored(upper: Upper, code: string)
    requires UppersAscii(upper) && CodePattern(code)
    ensures Normalize(upper, code[..4] + "-" + code[4..]) == Some(code)
  {
    hide DropSeparators, Replace, CodeChar, UppersAscii, ReadEach, UpperCase;
    var s, t := code[..4], code[4..];
    DashReads(upper);
    UpperConcat(upper, s + "-", t);
    UpperConcat(upper, s, "-");
    ReadConcat(UpperCase(upper, s + "-"), UpperCase(upper, t));
    ReadConcat(UpperCase(upper, s), UpperCase(upper, "-"));
    CodeReadsItself(upper, s);
    CodeReadsItself(upper, t);
    ReadsEach(UpperCase(upper, s + "-" + t));
    assert s + "" + t == code;
  }

  lemma {:induction false} DashReads(upper: Upper)
    requires UppersAscii(upper)
    ensures ReadEach(UpperCase(upper, "-")) == ""
  {
    assert upper('-') == "-";
    assert UpperCase(upper, "-") == "-" + UpperCase(upper, "");
    assert ReadEach("-") == ReadChar('-') + ReadEach("");
  }

  lemma {:induction false} UpperConcat(upper: Upper, s: string, t: string)
    ensures UpperCase(upper, s + t) == UpperCase(upper, s) + UpperCase(upper, t)
  {
    if s == "" {
      assert s + t == t;
    } else {
      assert (s + t)[1..] == s[1..] + t;
      UpperConcat(upper, s[1..], t);
    }
  }

  // ----- redeeming

  /** A link minted at `minted` is usable until it is used, for exactly the milliseconds it was given: two
      minutes when none are. */
  lemma {:induction false} UsableWhileFresh(minted: int, ttl: int, now: int, consumed: bool)
    ensures Inspect(Record(Some(Expiry(minted, ttl)), consumed), Some(now)) == Usable
       <==> !consumed && now - minted < ttl
    ensures Inspect(Record(Some(Expiry(minted)), consumed), Some(now)) == Usable
       <==> !consumed && now - minted < 120000
  {
  }

  /** A used link is told to be used even when it has expired as well; a link without a valid date has
      expired. */
  lemma {:induction false} InspectExactly(record: Record, now: int)
    ensures Inspect(record, Some(now)) == AlreadyUsed <==> record.consumed
    ensures Inspect(record, Some(now)) == Expired
       <==> !record.consumed && (record.expiresAt == None || record.expiresAt.value <= now)
  {
  }
}

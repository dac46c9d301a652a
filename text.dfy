/** The pieces of Go's `strings`, `unicode` and `fmt` packages that the
    handlers rely on, over Dafny strings (sequences of Unicode scalar values),
    and the blank-field loop shared by the login and employee handlers. */
module Text {

  /** Go's unicode.IsSpace: the Latin-1 white space characters and the other
      characters with the Unicode White_Space property. */
  predicate IsSpace(c: char) {
    || c == '\t' || c == '\n' || c == '\U{000B}' || c == '\U{000C}' || c == '\r' || c == ' '
    || c == '\U{0085}' || c == '\U{00A0}' || c == '\U{1680}'
    || ('\U{2000}' <= c <= '\U{200A}')
    || c == '\U{2028}' || c == '\U{2029}' || c == '\U{202F}' || c == '\U{205F}' || c == '\U{3000}'
  }

  predicate AllSpace(s: string) {
    forall i :: 0 <= i < |s| ==> IsSpace(s[i])
  }

  /** Drops the leading white space. */
  function TrimLeft(s: string): (r: string)
    ensures |r| <= |s| && r == s[|s| - |r|..]
    ensures forall i :: 0 <= i < |s| - |r| ==> IsSpace(s[i])
    ensures r == [] || !IsSpace(r[0])
  {
    if s != [] && IsSpace(s[0]) then TrimLeft(s[1..]) else s
  }

  /** Drops the trailing white space. */
  function TrimRight(s: string): (r: string)
    ensures |r| <= |s| && r == s[..|r|]
    ensures forall i :: |r| <= i < |s| ==> IsSpace(s[i])
    ensures r == [] || !IsSpace(r[|r| - 1])
  {
    if s != [] && IsSpace(s[|s| - 1]) then TrimRight(s[..|s| - 1]) else s
  }

  /** strings.TrimSpace. The result is empty exactly when every character of
      the input is white space, and otherwise neither starts nor ends with
      white space. */
  function TrimSpace(s: string): (r: string)
    ensures r == [] <==> AllSpace(s)
    ensures r != [] ==> !IsSpace(r[0]) && !IsSpace(r[|r| - 1])
  {
    TrimRight(TrimLeft(s))
  }

  /** The test `strings.TrimSpace(v) == ""` that the login and employee
      handlers apply to each required field. */
  predicate IsBlank(s: string) {
    TrimSpace(s) == ""
  }

  /** Number of bytes of the UTF-8 encoding of one character. */
  function RuneLen(c: char): nat {
    if c as int < 0x80 then 1
    else if c as int < 0x800 then 2
    else if c as int < 0x1_0000 then 3
    else 4
  }

  /** Go's `len` of a string: its length in UTF-8 bytes, between one and four
      bytes per character. */
  function Utf8Len(s: string): (n: nat)
    ensures |s| <= n <= 4 * |s|
  {
    if s == [] then 0 else RuneLen(s[0]) + Utf8Len(s[1..])
  }

  predicate IsAscii(s: string) {
    forall i :: 0 <= i < |s| ==> s[i] as int < 0x80
  }

  /** For ASCII text the byte length is the character count; otherwise it is
      strictly larger. */
  lemma {:induction false} Utf8LenAscii(s: string)
    ensures Utf8Len(s) == |s| <==> IsAscii(s)
  {
    if s != [] {
      Utf8LenAscii(s[1..]);
      assert IsAscii(s) <==> s[0] as int < 0x80 && IsAscii(s[1..]);
    }
  }

  /** strings.Split with a one-character separator: the pieces between
      separators, at least one (`Split("", sep) == [""]`). */
  function Split(s: string, sep: char): (parts: seq<string>)
    ensures |parts| >= 1
    ensures forall i :: 0 <= i < |parts| ==> sep !in parts[i]
  {
    if s == [] then [[]]
    else
      var rest := Split(s[1..], sep);
      if s[0] == sep then [[]] + rest else [[s[0]] + rest[0]] + rest[1..]
  }

  /** The sum of the lengths of the pieces. */
  function LongitudTotal(parts: seq<string>): nat {
    if parts == [] then 0 else |parts[0]| + LongitudTotal(parts[1..])
  }

  /** strings.Join: the pieces in order with one separator between each two;
      the empty list joins to "". */
  function Join(parts: seq<string>, sep: string): string {
    if |parts| == 0 then []
    else if |parts| == 1 then parts[0]
    else parts[0] + sep + Join(parts[1..], sep)
  }

  /** A join holds every piece and one separator between each two pieces, and
      starts with the first piece. */
  lemma {:induction false} JoinLongitud(parts: seq<string>, sep: string)
    ensures parts == [] ==> Join(parts, sep) == []
    ensures |parts| >= 1 ==> |Join(parts, sep)| == LongitudTotal(parts) + (|parts| - 1) * |sep|
    ensures |parts| >= 1 ==> |parts[0]| <= |Join(parts, sep)| && Join(parts, sep)[..|parts[0]|] == parts[0]
  {
    if |parts| >= 2 {
      JoinLongitud(parts[1..], sep);
    }
  }

  /** Join of a list of at least two pieces, one piece at a time. */
  lemma JoinCons(first: string, rest: seq<string>, sep: string)
    requires |rest| >= 1
    ensures Join([first] + rest, sep) == first + sep + Join(rest, sep)
  {
    assert ([first] + rest)[1..] == rest;
  }

  lemma {:induction false} SplitNoSeparator(w: string, sep: char)
    requires sep !in w
    ensures Split(w, sep) == [w]
  {
    if w != [] {
      SplitNoSeparator(w[1..], sep);
      assert [w[0]] + w[1..] == w;
    }
  }

  lemma {:induction false} SplitAfterPiece(w: string, t: string, sep: char)
    requires sep !in w
    ensures Split(w + [sep] + t, sep) == [w] + Split(t, sep)
  {
    var s := w + [sep] + t;
    if w == [] {
      assert s[1..] == t;
    } else {
      assert s[1..] == w[1..] + [sep] + t;
      SplitAfterPiece(w[1..], t, sep);
      assert [w[0]] + w[1..] == w;
    }
  }

  /** Splitting a joined list gives the list back when no piece contains the
      separator. */
  lemma {:induction false} SplitJoin(parts: seq<string>, sep: char)
    requires |parts| >= 1
    requires forall i :: 0 <= i < |parts| ==> sep !in parts[i]
    ensures Split(Join(parts, [sep]), sep) == parts
  {
    if |parts| == 1 {
      SplitNoSeparator(parts[0], sep);
    } else {
      SplitJoin(parts[1..], sep);
      SplitAfterPiece(parts[0], Join(parts[1..], [sep]), sep);
      assert [parts[0]] + parts[1..] == parts;
    }
  }

  /** Joining the pieces of a split gives the string back. */
  lemma {:induction false} JoinSplit(s: string, sep: char)
    ensures Join(Split(s, sep), [sep]) == s
  {
    if s != [] {
      var rest := Split(s[1..], sep);
      JoinSplit(s[1..], sep);
      if s[0] == sep {
        assert Split(s, sep) == [[]] + rest;
        assert ([[]] + rest)[1..] == rest;
      } else {
        var parts := Split(s, sep);
        assert parts == [[s[0]] + rest[0]] + rest[1..];
        if |rest| == 1 {
          assert [s[0]] + s[1..] == s;
        } else {
          assert parts[1..] == rest[1..];
          assert Join(rest, [sep]) == rest[0] + [sep] + Join(rest[1..], [sep]);
          assert [s[0]] + s[1..] == s;
        }
      }
    }
  }

  function Digit(d: nat): (c: char)
    requires d < 10
    ensures '0' <= c <= '9' && c as int - '0' as int == d
  {
    "0123456789"[d]
  }

  /** The number a string of decimal digits spells, most significant first. */
  function ValorDecimal(s: string): nat
    requires forall i :: 0 <= i < |s| ==> '0' <= s[i] <= '9'
  {
    if s == [] then 0 else 10 * ValorDecimal(s[..|s| - 1]) + (s[|s| - 1] as int - '0' as int)
  }

  /** fmt's `%d` of a non-negative number: its decimal digits, most
      significant first, with no leading zero. */
  function Decimal(n: nat): (r: string)
    ensures |r| >= 1 && forall i :: 0 <= i < |r| ==> '0' <= r[i] <= '9'
    ensures r[0] == '0' <==> n == 0
  {
    if n < 10 then [Digit(n)] else Decimal(n / 10) + [Digit(n % 10)]
  }

  /** The digits `%d` writes spell the number, so two different numbers are
      never written alike. */
  lemma {:induction false} DecimalValor(n: nat)
    ensures ValorDecimal(Decimal(n)) == n
  {
    if n >= 10 {
      DecimalValor(n / 10);
      assert Decimal(n)[..|Decimal(n)| - 1] == Decimal(n / 10);
    }
  }

  lemma DecimalInyectiva(a: nat, b: nat)
    ensures Decimal(a) == Decimal(b) <==> a == b
  {
    DecimalValor(a);
    DecimalValor(b);
  }

  predicate NoDuplicates<T(==)>(s: seq<T>) {
    forall i, j :: 0 <= i < j < |s| ==> s[i] != s[j]
  }

  /** `order` visits every key of a Go map exactly once: one possible order of
      a `for k, v := range m` loop, which Go leaves unspecified. */
  ghost predicate IsEnumeration(order: seq<string>, keys: set<string>) {
    && (forall k :: k in keys <==> k in order)
    && NoDuplicates(order)
  }

  /** The names in `order` that are keys of `campos` with a value blank after
      TrimSpace, in order. */
  function Blancos(campos: map<string, string>, order: seq<string>): seq<string> {
    if order == [] then []
    else
      var last := order[|order| - 1];
      Blancos(campos, order[..|order| - 1]) + (if last in campos && IsBlank(campos[last]) then [last] else [])
  }

  /** Blancos keeps exactly the blank names of `order`. */
  lemma {:induction false} BlancosMiembros(campos: map<string, string>, order: seq<string>)
    ensures forall f :: f in Blancos(campos, order) <==> f in order && f in campos && IsBlank(campos[f])
    ensures |Blancos(campos, order)| <= |order|
  {
    if order != [] {
      var init := order[..|order| - 1];
      assert order == init + [order[|order| - 1]];
      BlancosMiembros(campos, init);
    }
  }

  /** Blancos of a list without repetitions has none. */
  lemma {:induction false} BlancosSinRepetir(campos: map<string, string>, order: seq<string>)
    requires NoDuplicates(order)
    ensures NoDuplicates(Blancos(campos, order))
  {
    if order != [] {
      var init := order[..|order| - 1];
      var last := order[|order| - 1];
      assert order == init + [last];
      BlancosSinRepetir(campos, init);
      BlancosMiembros(campos, init);
      assert last !in init;
    }
  }

  /** One step of the loop over `order`. */
  lemma BlancosPaso(campos: map<string, string>, order: seq<string>, i: int)
    requires 0 <= i < |order|
    ensures Blancos(campos, order[..i + 1])
         == Blancos(campos, order[..i]) + (if order[i] in campos && IsBlank(campos[order[i]]) then [order[i]] else [])
  {
    assert order[..i + 1][..i] == order[..i];
  }

  /** Over an enumeration of the keys, Blancos names every blank field once. */
  lemma BlancosEnumeracion(campos: map<string, string>, order: seq<string>)
    requires IsEnumeration(order, campos.Keys)
    ensures forall f :: f in Blancos(campos, order) <==> f in campos && IsBlank(campos[f])
    ensures NoDuplicates(Blancos(campos, order))
    ensures |Blancos(campos, order)| <= |order|
  {
    BlancosMiembros(campos, order);
    BlancosSinRepetir(campos, order);
  }

  /** The `CamposVacios` loop: ranges over the required fields in the order
      the runtime chose and collects the name of every field whose value is
      blank after TrimSpace. The result names exactly the blank fields, each
      once, in iteration order. */
  method CamposVacios(campos: map<string, string>, order: seq<string>) returns (vacios: seq<string>)
    requires IsEnumeration(order, campos.Keys)
    ensures vacios == Blancos(campos, order)
    ensures forall f :: f in vacios <==> f in campos && IsBlank(campos[f])
    ensures NoDuplicates(vacios)
    ensures |vacios| <= |order|
  {
    vacios := [];
    for i := 0 to |order|
      invariant vacios == Blancos(campos, order[..i])
    {
      var field := order[i];
      assert field in campos;
      BlancosPaso(campos, order, i);
      if IsBlank(campos[field]) {
        vacios := vacios + [field];
      }
    }
    assert order[..|order|] == order;
    BlancosEnumeracion(campos, order);
  }
}

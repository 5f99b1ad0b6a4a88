/** Key lookup in printed objects: the scan for `"key":` is never confused by what values contain. */
module JsonLookup {
  import opened Words
  import opened Utf8
  import opened Json
  import opened Options

  /** The pieces of a printed object: keys with their colon, string values, and other text. */
  datatype Item = Key(name: seq<Byte>) | Str(value: seq<Byte>) | Raw(text: seq<Byte>)

  function PrintItem(item: Item): seq<Byte> {
    match item
    case Key(name) => [QUOTE] + name + [QUOTE, COLON]
    case Str(value) => [QUOTE] + Escape(value) + [QUOTE]
    case Raw(text) => text
  }

  function Print(items: seq<Item>): seq<Byte> {
    if items == [] then [] else PrintItem(items[0]) + Print(items[1..])
  }

  /** A letter or an underscore. */
  predicate IsWordByte(b: Byte) {
    65 <= b <= 90 || 97 <= b <= 122 || b == 95
  }

  predicate IsWord(key: seq<Byte>) {
    forall i :: 0 <= i < |key| ==> IsWordByte(key[i])
  }

  /** ',' or '}' or ']'. */
  predicate IsCloser(b: Byte) {
    b == 44 || b == 125 || b == 93
  }

  /** Keys are plain words, other text has no quotes, and a string value is followed by text that
      starts by closing it. */
  predicate Regular(items: seq<Item>)
    decreases |items|
  {
    items == [] ||
    (&& Regular(items[1..])
     && match items[0]
        case Key(name) => IsWord(name)
        case Str(_) => |items| > 1 && items[1].Raw? && items[1].text != [] && IsCloser(items[1].text[0])
        case Raw(text) => QUOTE !in text)
  }

  /** The items after the first key with this name. */
  function Rest(items: seq<Item>, key: seq<Byte>): Option<seq<Item>>
    decreases |items|
  {
    if items == [] then None
    else if items[0] == Key(key) then Some(items[1..])
    else Rest(items[1..], key)
  }

  /** Every quote in `f` is escaped: a backslash comes before it (`p` is the byte before `f`). */
  predicate Guarded(p: Byte, f: seq<Byte>) {
    && (f != [] && f[0] == QUOTE ==> p == BACKSLASH)
    && forall i {:trigger f[i]} :: 1 <= i < |f| && f[i] == QUOTE ==> f[i - 1] == BACKSLASH
  }

  lemma UnitGuarded(s: seq<Byte>)
    requires s != []
    ensures Guarded(0, Unit(s).0)
  {
    var k := SeqLen(s);
    if k > 0 {
      SeqLenShape(s);
      assert forall i :: 1 <= i < k ==> s[..k][i] == s[i] && IsCont(s[i]);
    }
  }

  /** Escaped text never contains an unescaped quote. */
  lemma {:induction false} EscapeGuarded(v: seq<Byte>)
    ensures Guarded(0, Escape(v))
    decreases |v|
  {
    hide Unit;
    if v != [] {
      UnitShape(v);
      UnitGuarded(v);
      EscapeGuarded(v[Unit(v).1..]);
    }
  }

  lemma NotHere(s: seq<Byte>, key: seq<Byte>)
    requires !KeyHere(s, key) && s != []
    ensures AfterKey(s, key) == AfterKey(s[1..], key)
  {
  }

  /** Text without quotes is skipped. */
  lemma {:induction false} SkipRaw(text: seq<Byte>, rest: seq<Byte>, key: seq<Byte>)
    requires QUOTE !in text
    ensures AfterKey(text + rest, key) == AfterKey(rest, key)
    decreases |text|
  {
    if text == [] {
      assert text + rest == rest;
    } else {
      assert (text + rest)[0] == text[0] && (text + rest)[1..] == text[1..] + rest;
      NotHere(text + rest, key);
      SkipRaw(text[1..], rest, key);
    }
  }

  /** Inside a string value, after a quote or not, no key starts. */
  lemma NoKeyInside(f: seq<Byte>, rest: seq<Byte>, key: seq<Byte>)
    requires IsWord(key) && Guarded(QUOTE, f) && rest != [] && IsCloser(rest[0])
    ensures !KeyHere([QUOTE] + (f + [QUOTE] + rest), key)
  {
    var s := [QUOTE] + (f + [QUOTE] + rest);
    var k := |key|;
    KeyBytes(s, key);
    assert k < |f| ==> s[1 + k] == f[k] && (k > 0 ==> s[k] == f[k - 1]);
    assert s[1 + |f|] == QUOTE;
    assert k == |f| ==> s[k + 2..] == rest;
  }

  /** Where the key is spelled out, no byte of it is a quote or a backslash. */
  lemma KeyBytes(s: seq<Byte>, key: seq<Byte>)
    requires IsWord(key)
    ensures |key| + 2 < |s| && s[1..1 + |key|] == key ==>
              forall i :: 1 <= i <= |key| ==>
                s[i] == key[i - 1] && s[i] != QUOTE && s[i] != BACKSLASH && !IsCloser(s[i]) && s[i] != COLON
  {
    if |key| + 2 < |s| && s[1..1 + |key|] == key {
      assert forall i :: 1 <= i <= |key| ==> s[i] == s[1..1 + |key|][i - 1];
    }
  }

  /** A string value's body and its closing quote are skipped. */
  lemma {:induction false} SkipBody(p: Byte, f: seq<Byte>, rest: seq<Byte>, key: seq<Byte>)
    requires IsWord(key) && Guarded(p, f) && rest != [] && IsCloser(rest[0])
    ensures AfterKey(f + [QUOTE] + rest, key) == AfterKey(rest, key)
    decreases |f|
  {
    hide KeyHere, AfterKey;
    var s := f + [QUOTE] + rest;
    if f == [] {
      assert s == [QUOTE] + rest && s[1..] == rest;
      NoKeyAtClose(rest, key);
      NotHere(s, key);
    } else {
      var g := f[1..];
      assert s == [f[0]] + (g + [QUOTE] + rest) && s[1..] == g + [QUOTE] + rest;
      if f[0] == QUOTE {
        assert Guarded(QUOTE, g);
        NoKeyInside(g, rest, key);
      } else {
        NoKeyAt(s, key);
      }
      NotHere(s, key);
      SkipBody(f[0], g, rest, key);
    }
  }

  lemma NoKeyAt(s: seq<Byte>, key: seq<Byte>)
    requires s != [] && s[0] != QUOTE
    ensures !KeyHere(s, key)
  {
  }

  lemma NoKeyAtClose(rest: seq<Byte>, key: seq<Byte>)
    requires IsWord(key) && rest != [] && IsCloser(rest[0])
    ensures !KeyHere([QUOTE] + rest, key)
  {
    KeyBytes([QUOTE] + rest, key);
    assert ([QUOTE] + rest)[1] == rest[0];
  }

  /** A whole string value is skipped, whatever it contains. */
  lemma SkipStr(v: seq<Byte>, rest: seq<Byte>, key: seq<Byte>)
    requires IsWord(key) && rest != [] && IsCloser(rest[0])
    ensures AfterKey(PrintItem(Str(v)) + rest, key) == AfterKey(rest, key)
  {
    hide KeyHere, AfterKey, Escape;
    var e := Escape(v);
    EscapeGuarded(v);
    var s := [QUOTE] + (e + [QUOTE] + rest);
    assert PrintItem(Str(v)) + rest == s && s[1..] == e + [QUOTE] + rest;
    GuardedAfterQuote(e);
    NoKeyInside(e, rest, key);
    NotHere(s, key);
    SkipBody(0, e, rest, key);
  }

  lemma GuardedAfterQuote(e: seq<Byte>)
    requires Guarded(0, e)
    ensures Guarded(QUOTE, e)
  {
  }

  /** Another key is skipped. */
  lemma SkipKey(name: seq<Byte>, rest: seq<Byte>, key: seq<Byte>)
    requires IsWord(key) && IsWord(name) && name != key
    ensures AfterKey(PrintItem(Key(name)) + rest, key) == AfterKey(rest, key)
  {
    hide KeyHere, AfterKey;
    var s := [QUOTE] + (name + ([QUOTE, COLON] + rest));
    assert PrintItem(Key(name)) + rest == s;
    OtherKey(name, rest, key);
    NotHere(s, key);
    assert s[1..] == name + ([QUOTE, COLON] + rest);
    WordHasNoQuote(name);
    SkipRaw(name, [QUOTE, COLON] + rest, key);
    var t := [QUOTE, COLON] + rest;
    KeyCloses(rest, key);
    NotHere(t, key);
    assert t[1..] == [COLON] + rest;
    SkipRaw([COLON], rest, key);
  }

  lemma WordHasNoQuote(name: seq<Byte>)
    requires IsWord(name)
    ensures QUOTE !in name
  {
  }

  lemma OtherKey(name: seq<Byte>, rest: seq<Byte>, key: seq<Byte>)
    requires IsWord(key) && IsWord(name) && name != key
    ensures !KeyHere([QUOTE] + (name + ([QUOTE, COLON] + rest)), key)
  {
    var s := [QUOTE] + (name + ([QUOTE, COLON] + rest));
    var k := |key|;
    KeyBytes(s, key);
    assert k < |name| ==> s[1 + k] == name[k];
    assert s[1 + |name|] == QUOTE;
    assert k == |name| ==> s[1..1 + k] == name;
  }

  lemma KeyCloses(rest: seq<Byte>, key: seq<Byte>)
    requires IsWord(key)
    ensures !KeyHere([QUOTE, COLON] + rest, key)
  {
    KeyBytes([QUOTE, COLON] + rest, key);
    assert ([QUOTE, COLON] + rest)[1] == COLON;
  }

  /** The key itself is found. */
  lemma FindKey(rest: seq<Byte>, key: seq<Byte>)
    ensures AfterKey(PrintItem(Key(key)) + rest, key) == Some(rest)
  {
    hide SkipSpace, PrintItem;
    var s := PrintItem(Key(key)) + rest;
    KeyShape(key, rest);
    ColonStops(rest);
  }

  lemma KeyShape(key: seq<Byte>, rest: seq<Byte>)
    ensures var s := PrintItem(Key(key)) + rest;
            |s| > |key| + 2 && KeyHere(s, key) && s[|key| + 2..] == [COLON] + rest
  {
    var s := PrintItem(Key(key)) + rest;
    assert s[0] == QUOTE && s[1..1 + |key|] == key && s[1 + |key|] == QUOTE;
  }

  lemma ColonStops(rest: seq<Byte>)
    ensures SkipSpace([COLON] + rest) == [COLON] + rest && ([COLON] + rest)[1..] == rest
  {
  }

  /** In a printed object the scan finds exactly the first key with the given name, and finds
      nothing when there is none: quotes, colons and whole key patterns inside values do not count. */
  lemma {:induction false} LookupExact(items: seq<Item>, key: seq<Byte>)
    requires Regular(items) && IsWord(key)
    ensures AfterKey(Print(items), key) ==
            match Rest(items, key) case None => None case Some(rest) => Some(Print(rest))
    decreases |items|
  {
    hide AfterKey, PrintItem;
    if items == [] {
      assert AfterKey([], key) == None by { NothingInNothing(key); }
    } else {
      var rest := Print(items[1..]);
      match items[0]
      case Key(name) =>
        if name == key {
          FindKey(rest, key);
        } else {
          SkipKey(name, rest, key);
          LookupExact(items[1..], key);
        }
      case Str(v) =>
        FirstRaw(items[1..]);
        SkipStr(v, rest, key);
        LookupExact(items[1..], key);
      case Raw(text) =>
        RawPrints(text);
        SkipRaw(text, rest, key);
        LookupExact(items[1..], key);
    }
  }

  lemma NothingInNothing(key: seq<Byte>)
    ensures AfterKey([], key) == None
  {
  }

  lemma RawPrints(text: seq<Byte>)
    ensures PrintItem(Raw(text)) == text
  {
  }

  lemma FirstRaw(items: seq<Item>)
    requires items != [] && items[0].Raw? && items[0].text != []
    ensures Print(items) != [] && Print(items)[0] == items[0].text[0]
  {
  }

  /** Looking up a key whose value is a string gives back that string when it is well-formed UTF-8 and
      fits the output, whatever the other values are; otherwise stray bytes come back replaced. */
  lemma ExtractExact(items: seq<Item>, key: seq<Byte>, v: seq<Byte>, cap: nat)
    requires Regular(items) && IsWord(key) && |Sanitize(v)| <= cap
    requires Rest(items, key).Some? && Rest(items, key).value != [] && Rest(items, key).value[0] == Str(v)
    ensures Extract(Print(items), key, cap) == Some(Sanitize(v))
    ensures Extract(Print(items), key, cap) == Some(v) <==> WellFormed(v)
  {
    hide AfterKey, Escape, Sanitize, ReadString, Regular, WellFormed, Rest;
    LookupExact(items, key);
    var rest := Rest(items, key).value;
    var tail := Print(rest[1..]);
    assert Print(rest) == [QUOTE] + (Escape(v) + [QUOTE] + tail);
    assert SkipSpace(Print(rest)) == Print(rest);
    assert Print(rest)[1..] == Escape(v) + [QUOTE] + tail;
    ReadEscaped(v, tail, [], cap);
    assert [] + Sanitize(v) == Sanitize(v);
    SanitizeGrows(v);
  }
}

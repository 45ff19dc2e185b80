/** WebDAV hrefs: percent-encoding (section 2.1 of RFC 3986) of listed paths,
    decoding of request paths, and the parsed resource. */
module Hrefs {
  import opened Basics
  import opened PathText

  function Ord(c: char): byte
    requires c < 128 as char
  {
    (c as int) as byte
  }

  predicate InRange(b: byte, lo: char, hi: char)
    requires lo < 128 as char && hi < 128 as char
  {
    Ord(lo) <= b <= Ord(hi)
  }

  /** Bytes written as they are: those of `encodeURIComponent`, and the slash. */
  predicate Plain(b: byte) {
    || InRange(b, 'A', 'Z') || InRange(b, 'a', 'z') || InRange(b, '0', '9')
    || b == Ord('-') || b == Ord('_') || b == Ord('.') || b == Ord('!') || b == Ord('~')
    || b == Ord('*') || b == Ord('\'') || b == Ord('(') || b == Ord(')') || b == Ord('/')
  }

  function HexDigit(n: byte): byte
    requires n < 16
  {
    if n < 10 then Ord('0') + n else Ord('A') + (n - 10)
  }

  function DigitValue(b: byte): Option<byte> {
    if InRange(b, '0', '9') then Some(b - Ord('0'))
    else if InRange(b, 'A', 'F') then Some(b - Ord('A') + 10)
    else if InRange(b, 'a', 'f') then Some(b - Ord('a') + 10)
    else None
  }

  function EncodeByte(b: byte): seq<byte> {
    if Plain(b) then [b] else [Ord('%'), HexDigit(b / 16), HexDigit(b % 16)]
  }

  function Encode(s: seq<byte>): seq<byte> {
    if s == [] then [] else EncodeByte(s[0]) + Encode(s[1..])
  }

  /** One turn of the decoding loop: the byte it yields and how far it moves. */
  function DecodeHead(s: seq<byte>): (byte, nat)
    requires s != []
  {
    if s[0] == Ord('%') && |s| > 2 && DigitValue(s[1]).Some? && DigitValue(s[2]).Some? then
      (DigitValue(s[1]).value * 16 + DigitValue(s[2]).value, 3)
    else (s[0], 1)
  }

  /** Invalid escapes pass through. */
  function Decode(s: seq<byte>): seq<byte> {
    if s == [] then []
    else
      var (b, n) := DecodeHead(s);
      [b] + Decode(s[n..])
  }

  lemma HexRoundTrip(b: byte)
    ensures DigitValue(HexDigit(b / 16)) == Some(b / 16) && DigitValue(HexDigit(b % 16)) == Some(b % 16)
  {
  }

  lemma DecodeOne(b: byte, rest: seq<byte>)
    ensures Decode(EncodeByte(b) + rest) == [b] + Decode(rest)
  {
    var s := EncodeByte(b) + rest;
    if Plain(b) {
      assert s[1..] == rest;
    } else {
      HexRoundTrip(b);
      assert s[3..] == rest;
    }
  }

  /** Every byte string survives, so every UTF-8 text does. */
  lemma {:induction false} EncodeDecode(s: seq<byte>)
    ensures Decode(Encode(s)) == s
  {
    if s != [] {
      EncodeDecode(s[1..]);
      DecodeOne(s[0], Encode(s[1..]));
    }
  }

  method EncodeHref(uri: seq<byte>) returns (out: seq<byte>)
    ensures out == Encode(uri)
    ensures Decode(out) == uri
  {
    out := [];
    assert uri[0..] == uri;
    for i := 0 to |uri|
      invariant out + Encode(uri[i..]) == Encode(uri)
    {
      ghost var rest := Encode(uri[i + 1..]);
      assert Encode(uri[i..]) == EncodeByte(uri[i]) + rest by {
        assert uri[i..][1..] == uri[i + 1..];
      }
      assert (out + EncodeByte(uri[i])) + rest == out + (EncodeByte(uri[i]) + rest);
      out := out + EncodeByte(uri[i]);
    }
    EncodeDecode(uri);
  }

  lemma DecodeStep(bytes: seq<byte>, i: nat, out: seq<byte>)
    requires i < |bytes|
    ensures var (b, n) := DecodeHead(bytes[i..]);
            i + n <= |bytes| && out + Decode(bytes[i..]) == (out + [b]) + Decode(bytes[i + n..])
  {
    var (b, n) := DecodeHead(bytes[i..]);
    assert bytes[i..][n..] == bytes[i + n..];
    assert Decode(bytes[i..]) == [b] + Decode(bytes[i + n..]);
  }

  method PercentDecode(bytes: seq<byte>) returns (out: seq<byte>)
    ensures out == Decode(bytes)
  {
    out := [];
    var i := 0;
    assert bytes[0..] == bytes;
    while i < |bytes|
      invariant 0 <= i <= |bytes| && out + Decode(bytes[i..]) == Decode(bytes)
    {
      DecodeStep(bytes, i, out);
      if bytes[i] == Ord('%') && i + 2 < |bytes| {
        var hi, lo := DigitValue(bytes[i + 1]), DigitValue(bytes[i + 2]);
        if hi.Some? && lo.Some? {
          out := out + [hi.value * 16 + lo.value];
          i := i + 3;
          continue;
        }
      }
      out := out + [bytes[i]];
      i := i + 1;
    }
  }

  /** The bytes an href holds as they are: letters, digits and `-_.!~*'()/`, by
      their ASCII codes. */
  predicate Unescaped(b: byte) {
    || 65 <= b <= 90 || 97 <= b <= 122 || 48 <= b <= 57
    || b == 45 || b == 95 || b == 46 || b == 33 || b == 126 || b == 42 || b == 39 || b == 40 || b == 41 || b == 47
  }

  /** An upper-case digit `h` of base 16 stands for `n`. */
  predicate UpperHex(h: byte, n: byte) {
    if n < 10 then h == 48 + n else n < 16 && h == 55 + n
  }

  /** Every other byte becomes `%` and two upper-case digits; so an href holds no
      `#`, `?` or space, and `%` only in front of digits. */
  lemma EscapesAre(b: byte)
    ensures Unescaped(b) ==> Encode([b]) == [b]
    ensures !Unescaped(b) ==>
              |Encode([b])| == 3 && Encode([b])[0] == 37 && UpperHex(Encode([b])[1], b / 16) && UpperHex(Encode([b])[2], b % 16)
  {
    assert [b][1..] == [];
    assert Encode([b]) == EncodeByte(b) + [];
  }

  lemma {:induction false} EncodedByByte(s: seq<byte>, t: seq<byte>)
    ensures Encode(s + t) == Encode(s) + Encode(t)
  {
    if s == [] {
      assert [] + t == t;
    } else {
      assert (s + t)[1..] == s[1..] + t;
      EncodedByByte(s[1..], t);
    }
  }

  /** A digit of base 16 in either case. */
  predicate IsHex(h: byte, n: byte) {
    UpperHex(h, n) || (10 <= n < 16 && h == 87 + n)
  }

  lemma DigitValueIs(h: byte)
    ensures DigitValue(h).Some? ==> IsHex(h, DigitValue(h).value) && DigitValue(h).value < 16
    ensures forall n | IsHex(h, n) :: DigitValue(h) == Some(n)
  {
  }

  /** `%` and two digits decode to their byte. */
  lemma DecodesEscape(s: seq<byte>, hi: byte, lo: byte)
    requires |s| > 2 && s[0] == 37 && IsHex(s[1], hi) && IsHex(s[2], lo)
    ensures Decode(s) == [16 * hi + lo] + Decode(s[3..])
  {
    DigitValueIs(s[1]);
    DigitValueIs(s[2]);
    assert DecodeHead(s) == (hi * 16 + lo, 3);
  }

  /** Anything else stands for itself. */
  lemma DecodesPlain(s: seq<byte>)
    requires s != []
    requires s[0] == 37 && |s| > 2 ==> (forall n :: !IsHex(s[1], n)) || (forall n :: !IsHex(s[2], n))
    ensures Decode(s) == [s[0]] + Decode(s[1..])
  {
    if |s| > 2 {
      DigitValueIs(s[1]);
      DigitValueIs(s[2]);
    }
    assert DecodeHead(s) == (s[0], 1);
  }

  // ---- the parsed resource ----

  /** `/./` is at position `i`. */
  predicate DotAt(s: string, i: nat) {
    i + 3 <= |s| && s[i] == '/' && s[i + 1] == '.' && s[i + 2] == '/'
  }

  /** `replace("/./", "/")`: left to right, no overlaps. */
  function DropDots(s: string): string {
    if |s| < 3 then s
    else if DotAt(s, 0) then "/" + DropDots(s[3..])
    else [s[0]] + DropDots(s[1..])
  }

  datatype Resource = Resource(
    url: string,
    name: string,
    parentPath: string,
    components: seq<string>,
    isDirHint: bool)

  predicate EndsWithSlash(s: string) {
    s != "" && s[|s| - 1] == '/'
  }

  function ParseText(decoded: string): Resource {
    var url := if decoded == "" then "/" else decoded;
    var comps := Components(url);
    var parents := if comps == [] then [] else comps[..|comps| - 1];
    Resource(
      url,
      if comps == [] then "" else comps[|comps| - 1],
      if parents == [] then "/" else SlashText(parents) + "/",
      comps,
      EndsWithSlash(url))
  }

  /** `decodeText` turns the decoded bytes into text. */
  function Parse(raw: seq<byte>, decodeText: seq<byte> -> string): Resource {
    ParseText(DropDots(decodeText(Decode(raw))))
  }

  lemma {:induction false} SlashTextStarts(names: seq<string>)
    requires names != []
    ensures SlashText(names) != "" && SlashText(names)[0] == '/'
  {
    if |names| > 1 {
      SlashTextStarts(names[..|names| - 1]);
    }
  }

  lemma ParentText(text: string, parents: seq<string>)
    requires AreNames(parents) && text == if parents == [] then "/" else SlashText(parents) + "/"
    ensures Components(text) == parents && text != "" && text[0] == '/' && text[|text| - 1] == '/'
  {
    var front: string := if parents == [] then [] else SlashText(parents);
    assert text == front + "/";
    SlashAtEnd(text, front);
    if parents != [] {
      RootedComponents(front, parents);
      SlashTextStarts(parents);
    }
  }

  /** The parent path reads back as all components but the last. */
  lemma ParentReads(decoded: string, comps: seq<string>, parents: seq<string>)
    requires comps == ParseText(decoded).components && AreNames(comps)
    requires parents == if comps == [] then [] else comps[..|comps| - 1]
    ensures Components(ParseText(decoded).parentPath) == parents
  {
    ParentText(ParseText(decoded).parentPath, parents);
  }

  /** The name is the last component, the parent path reads back as the others,
      and the folder hint is the slash at the end. */
  lemma ParsedParts(decoded: string)
    ensures var r := ParseText(decoded);
            && r.url == (if decoded == "" then "/" else decoded) && r.components == Components(r.url)
            && (r.isDirHint <==> r.url[|r.url| - 1] == '/')
            && r.name == (if r.components == [] then "" else r.components[|r.components| - 1])
            && Components(r.parentPath) == if r.components == [] then [] else r.components[..|r.components| - 1]
  {
    var r := ParseText(decoded);
    ComponentsAreNames(r.url);
    ParentReads(decoded, r.components, if r.components == [] then [] else r.components[..|r.components| - 1]);
  }

  /** The href of a child as a folder listing writes it, before encoding. */
  function ChildHref(base: string, name: string, isFolder: bool): string {
    (if EndsWithSlash(base) then base else base + "/") + name + (if isFolder then "/" else "")
  }

  ghost predicate HasDot(s: string) {
    exists i: nat :: DotAt(s, i)
  }

  /** How many `/./` are replaced. */
  function Drops(s: string): nat {
    if |s| < 3 then 0 else if DotAt(s, 0) then 1 + Drops(s[3..]) else Drops(s[1..])
  }

  lemma HasDotTail(s: string)
    requires s != "" && !DotAt(s, 0)
    ensures HasDot(s) <==> HasDot(s[1..])
  {
    forall i: nat
      ensures DotAt(s[1..], i) == DotAt(s, i + 1)
    {
    }
    if HasDot(s) {
      var i: nat :| DotAt(s, i);
      assert DotAt(s[1..], i - 1);
    }
  }

  lemma {:induction false} NoDrops(s: string)
    ensures Drops(s) == 0 <==> !HasDot(s)
    ensures Drops(s) == 0 ==> DropDots(s) == s
    decreases |s|
  {
    if |s| >= 3 && !DotAt(s, 0) {
      NoDrops(s[1..]);
      HasDotTail(s);
    }
  }

  /** A name between slashes is one component. */
  lemma NameBetween(text: string, a: string, name: string, rest: string, mid: string)
    requires IsName(name) && mid == name + "/" + rest && text == a + "/" + mid
    ensures Components(text) == Components(a) + [name] + Components(rest)
  {
    JoinedIs(mid, name, rest);
    JoinedIs(text, a, mid);
    NameIsComponent(name);
  }

  lemma WithDot(text: string, a: string, dot: string, s: string, rest: string)
    requires DotAt(s, 0) && dot == [s[1]] && rest == s[3..] && text == a + s
    ensures |Components(text)| == |Components(a)| + 1 + |Components(rest)|
  {
    var mid := dot + "/" + rest;
    assert s == "/" + mid;
    assert text == a + "/" + mid;
    NameBetween(text, a, dot, rest, mid);
  }

  lemma WithoutDot(text: string, a: string, s: string, kept: string)
    requires DotAt(s, 0) && kept == DropDots(s[3..]) && text == a + DropDots(s)
    ensures |Components(text)| == |Components(a)| + |Components(kept)|
  {
    assert text == a + "/" + kept;
    JoinedIs(text, a, kept);
  }

  /** Every replacement costs exactly one component. */
  lemma {:induction false} DropsCostAfter(text: string, kept: string, a: string, s: string)
    requires text == a + s && kept == a + DropDots(s)
    ensures |Components(kept)| + Drops(s) == |Components(text)|
    decreases |s|
  {
    if |s| >= 3 {
      if DotAt(s, 0) {
        DropsCostAfter(s[3..], DropDots(s[3..]), [], s[3..]);
        WithDot(text, a, [s[1]], s, s[3..]);
        WithoutDot(kept, a, s, DropDots(s[3..]));
      } else {
        assert text == (a + [s[0]]) + s[1..] && kept == (a + [s[0]]) + DropDots(s[1..]);
        DropsCostAfter(text, kept, a + [s[0]], s[1..]);
      }
    }
  }

  lemma DropsCostComponents(s: string)
    ensures |Components(DropDots(s))| + Drops(s) == |Components(s)|
  {
    DropsCostAfter(s, DropDots(s), [], s);
  }

  lemma ParsedComponents(raw: seq<byte>, decodeText: seq<byte> -> string)
    ensures Parse(raw, decodeText).components == Components(DropDots(decodeText(Decode(raw))))
  {
    if DropDots(decodeText(Decode(raw))) == "" {
      assert LastSlash("/") == 0 && "/"[..0] == "";
      assert Components("/") == Components("") + [];
    }
  }

  /** Parsing loses no component if and only if there is no `/./` to replace. */
  lemma ParseKeepsComponents(raw: seq<byte>, decodeText: seq<byte> -> string)
    ensures Parse(raw, decodeText).components == Components(decodeText(Decode(raw))) <==> !HasDot(decodeText(Decode(raw)))
  {
    var text := decodeText(Decode(raw));
    ParsedComponents(raw, decodeText);
    NoDrops(text);
    DropsCostComponents(text);
  }

  lemma ChildComponents(base: string, name: string, isFolder: bool)
    requires IsName(name)
    ensures Components(ChildHref(base, name, isFolder)) == Components(base) + [name]
  {
    var stem := base;
    if EndsWithSlash(base) {
      stem := base[..|base| - 1];
      assert base == stem + "/";
      SlashAtEnd(base, stem);
    }
    var plain := stem + "/" + name;
    JoinedIs(plain, stem, name);
    NameIsComponent(name);
    if isFolder {
      assert ChildHref(base, name, true) == plain + "/";
      SlashAtEnd(ChildHref(base, name, true), plain);
    } else {
      assert ChildHref(base, name, false) == plain;
    }
  }

  lemma DotPlace(stem: string, name: string, isFolder: bool, i: nat)
    requires IsName(name) && EndsWithSlash(stem) && DotAt(stem + (name + (if isFolder then "/" else "")), i)
    ensures DotAt(stem, i) || (isFolder && name == ".")
  {
    var tail := name + (if isFolder then "/" else "");
    var href := stem + tail;
    assert forall k | 0 <= k < |tail| :: tail[k] == '/' <==> isFolder && k == |name|;
    assert forall k | 0 <= k < |tail| :: href[|stem| + k] == tail[k];
    if i + 3 > |stem| {
      assert tail[i + 2 - |stem|] == '/';
      assert i + 2 - |stem| == |name|;
    }
  }

  /** What a child's href adds to its folder's. */
  lemma ChildHasDot(base: string, name: string, isFolder: bool)
    requires IsName(name)
    ensures HasDot(ChildHref(base, name, isFolder)) <==> HasDot(ChildHref(base, "", false)) || (isFolder && name == ".")
  {
    var stem := ChildHref(base, "", false);
    var tail := name + (if isFolder then "/" else "");
    var href := ChildHref(base, name, isFolder);
    assert href == stem + tail;
    if HasDot(href) {
      var i: nat :| DotAt(href, i);
      DotPlace(stem, name, isFolder, i);
    }
    if HasDot(stem) {
      var i: nat :| DotAt(stem, i);
      assert DotAt(href, i);
    }
    if isFolder && name == "." {
      assert DotAt(href, |stem| - 1);
    }
  }

  lemma HintIsSlash(base: string, name: string, isFolder: bool)
    requires IsName(name)
    ensures EndsWithSlash(ChildHref(base, name, isFolder)) <==> isFolder
  {
    var href := ChildHref(base, name, isFolder);
    assert !isFolder ==> href[|href| - 1] == name[|name| - 1];
  }

  lemma ParsePlain(raw: seq<byte>, decodeText: seq<byte> -> string, text: string, parents: seq<string>, name: string)
    requires decodeText(Decode(raw)) == text && text != ""
    requires Components(text) == parents + [name] && !HasDot(text)
    ensures var r := Parse(raw, decodeText);
            && r.url == text && r.components == parents + [name] && r.name == name
            && r.isDirHint == EndsWithSlash(text)
            && r.parentPath == if parents == [] then "/" else SlashText(parents) + "/"
  {
    NoDrops(text);
    assert (parents + [name])[..|parents|] == parents;
  }

  /** A client that follows the encoded href of a listed child asks for that
      child, its components the base's and then the name, if and only if the
      child is not a folder named `.` and the base has no `/./` in it; and then
      the folder hint is set exactly when the listing wrote the trailing slash,
      and the parent is the base. `utf8` and `decodeText` are inverse on the
      text at hand. */
  lemma ChildHrefRoundTrip(base: string, name: string, isFolder: bool,
                           utf8: string -> seq<byte>, decodeText: seq<byte> -> string)
    requires IsName(name)
    requires var href := ChildHref(base, name, isFolder); decodeText(utf8(href)) == href
    ensures var href, comps := ChildHref(base, name, isFolder), Components(base);
            var r := Parse(Encode(utf8(href)), decodeText);
            var whole := !HasDot(ChildHref(base, "", false)) && !(isFolder && name == ".");
            && (r.components == comps + [name] <==> whole)
            && (whole ==> r.url == href && r.name == name && (r.isDirHint <==> isFolder)
                          && r.parentPath == if comps == [] then "/" else SlashText(comps) + "/")
  {
    var href := ChildHref(base, name, isFolder);
    EncodeDecode(utf8(href));
    ChildComponents(base, name, isFolder);
    ParseKeepsComponents(Encode(utf8(href)), decodeText);
    ChildHasDot(base, name, isFolder);
    if !HasDot(href) {
      ParsePlain(Encode(utf8(href)), decodeText, href, Components(base), name);
      HintIsSlash(base, name, isFolder);
    }
  }

  /** Under any base a folder named `.` gets lost. */
  lemma DotNameIsLost(base: string, decodeText: seq<byte> -> string, raw: seq<byte>)
    requires decodeText(Decode(raw)) == ChildHref(base, ".", true)
    ensures |Parse(raw, decodeText).components| < |Components(base)| + 1
  {
    var dot: string, href := ".", ChildHref(base, ".", true);
    ChildComponents(base, dot, true);
    ChildHasDot(base, dot, true);
    ParsedComponents(raw, decodeText);
    NoDrops(href);
    DropsCostComponents(href);
  }
}

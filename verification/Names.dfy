/**
 The vault's name: padded with blanks to twenty bytes when the vault is created,
 and stripped of ASCII whitespace whenever a later instruction derives an address
 from the stored bytes.
 */
module Names {
  import opened MachineInts

  type Bytes = seq<u8>

  const NAME_LENGTH: nat := 20
  const BLANK: u8 := 0x20

  /** Space, tab, line feed, form feed and carriage return; not the vertical tab. */
  predicate IsAsciiWhitespace(b: u8) {
    b == 0x20 || b == 0x09 || b == 0x0A || b == 0x0C || b == 0x0D
  }

  lemma AsciiWhitespaceIs(b: u8)
    ensures IsAsciiWhitespace(b) <==> b == 32 || (9 <= b <= 13 && b != 11)
  {
  }

  predicate Blank(s: Bytes) {
    forall i :: 0 <= i < |s| ==> IsAsciiWhitespace(s[i])
  }

  /** Neither end is whitespace. The empty name is trimmed. */
  predicate Trimmed(s: Bytes) {
    s != [] ==> !IsAsciiWhitespace(s[0]) && !IsAsciiWhitespace(s[|s| - 1])
  }

  /** The index of the first byte that is not whitespace, or the length if there is none. */
  function FirstSolid(s: Bytes): (i: nat)
    ensures i <= |s| && (i < |s| ==> !IsAsciiWhitespace(s[i]))
    ensures forall k :: 0 <= k < i ==> IsAsciiWhitespace(s[k])
  {
    if s == [] || !IsAsciiWhitespace(s[0]) then 0 else 1 + FirstSolid(s[1..])
  }

  /** One past the index of the last byte that is not whitespace, or zero if there is none. */
  function EndSolid(s: Bytes): (i: nat)
    ensures i <= |s| && (0 < i ==> !IsAsciiWhitespace(s[i - 1]))
    ensures forall k :: i <= k < |s| ==> IsAsciiWhitespace(s[k])
  {
    if s == [] || !IsAsciiWhitespace(s[|s| - 1]) then |s| else EndSolid(s[..|s| - 1])
  }

  /** `strip`. */
  function Strip(s: Bytes): Bytes {
    var from := FirstSolid(s);
    if from == |s| then [] else s[from..EndSolid(s)]
  }

  function Blanks(n: nat): (r: Bytes)
    ensures |r| == n && forall i :: 0 <= i < n ==> r[i] == BLANK
  {
    seq(n, i => BLANK)
  }

  function Pad(name: Bytes): (r: Bytes)
    requires |name| <= NAME_LENGTH
    ensures |r| == 20 && name <= r && forall i :: |name| <= i < 20 ==> r[i] == 0x20
  {
    name + Blanks(NAME_LENGTH - |name|)
  }

  /** Fills a twenty-byte buffer with blanks and copies the name over its front. */
  method PadName(name: Bytes) returns (data: array<u8>)
    requires |name| <= NAME_LENGTH
    ensures fresh(data) && data[..] == Pad(name)
  {
    data := new u8[NAME_LENGTH](_ => BLANK);
    for i := 0 to |name|
      invariant data[..i] == name[..i]
      invariant forall k :: i <= k < NAME_LENGTH ==> data[k] == BLANK
    {
      data[i] := name[i];
      assert data[..i + 1] == data[..i] + [name[i]];
    }
    assert data[..] == data[..|name|] + data[|name|..];
  }

  /** Only one cut of a byte string leaves a trimmed middle between whitespace. */
  lemma CutIsUnique(left: Bytes, middle: Bytes, right: Bytes)
    requires Blank(left) && Blank(right) && Trimmed(middle)
    ensures Strip(left + middle + right) == middle
  {
    var s := left + middle + right;
    if middle != [] {
      assert s[|left|] == middle[0] && s[|left| + |middle| - 1] == middle[|middle| - 1];
      assert s[|left|..|left| + |middle|] == middle;
    }
  }

  /** `strip` cuts off whitespace only, and all of it. */
  lemma StripCuts(s: Bytes) returns (from: nat, end: nat)
    ensures from <= end <= |s| && Strip(s) == s[from..end]
    ensures Blank(s[..from]) && Blank(s[end..]) && Trimmed(Strip(s))
  {
    from := FirstSolid(s);
    end := if from == |s| then |s| else EndSolid(s);
  }

  /** Every trimmed slice that leaves only whitespace outside is the one `strip` returns. */
  lemma StripIsTheTrimmedCore(s: Bytes, from: nat, end: nat)
    requires from <= end <= |s|
    requires Blank(s[..from]) && Blank(s[end..]) && Trimmed(s[from..end])
    ensures Strip(s) == s[from..end]
  {
    CutIsUnique(s[..from], s[from..end], s[end..]);
    assert s == s[..from] + s[from..end] + s[end..];
  }

  lemma StripIdempotent(s: Bytes)
    ensures Strip(Strip(s)) == Strip(s)
  {
    var from, end := StripCuts(s);
    CutIsUnique([], Strip(s), []);
    assert [] + Strip(s) + [] == Strip(s);
  }

  /** The stored name gives back the name exactly when the name was trimmed to begin with. */
  lemma StripPadRoundTrip(name: Bytes)
    requires |name| <= NAME_LENGTH
    ensures Strip(Pad(name)) == name <==> Trimmed(name)
  {
    var blanks := Blanks(NAME_LENGTH - |name|);
    if Trimmed(name) {
      CutIsUnique([], name, blanks);
      assert [] + name + blanks == Pad(name);
    } else {
      var from, end := StripCuts(Pad(name));
    }
  }

  /** Distinct trimmed names are stored as distinct bytes. */
  lemma TrimmedNamesStoreApart(a: Bytes, b: Bytes)
    requires |a| <= NAME_LENGTH && |b| <= NAME_LENGTH && Trimmed(a) && Trimmed(b)
    ensures Pad(a) == Pad(b) ==> a == b
  {
    StripPadRoundTrip(a);
    StripPadRoundTrip(b);
  }
}

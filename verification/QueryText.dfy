/**
 * Queries whose text holds an e-mail address as it is. supabase_membership.py writes
 * `email=eq.{address}` and further conditions into the URL without escaping the address: urllib
 * drops the text from the last `#` on, http.client refuses blanks, control characters and
 * anything outside ASCII, and the server splits conditions at `&` and decodes `+` and `%xx`.
 */
module QueryText {
  import opened Common
  import HashChain

  // ---------------------------------------------------------------- what leaves, and what is read

  /** The text before the last `#`; all of it if there is none. */
  function Kept(text: string): string {
    if '#' !in text then text else Kept'(text)
  }

  function Kept'(text: string): string
    requires '#' in text
  {
    if text[|text| - 1] == '#' then text[..|text| - 1] else Kept'(text[..|text| - 1])
  }

  /** The text before the first `&`. */
  function First(text: string): string {
    if text == "" || text[0] == '&' then "" else [text[0]] + First(text[1..])
  }

  function HexValue(c: char): nat
    requires HashChain.IsHexDigit(c)
    ensures HexValue(c) < 16
  {
    if c <= '9' then c as int - '0' as int
    else if c <= 'F' then c as int - 'A' as int + 10
    else c as int - 'a' as int + 10
  }

  /** The text starts with `%` and two hexadecimal digits. */
  predicate StartsEscape(text: string) {
    |text| >= 3 && text[0] == '%' && HashChain.IsHexDigit(text[1]) && HashChain.IsHexDigit(text[2])
  }

  /** One character for every escape, which stands for a byte, and a blank for every `+`. */
  function Decoded(text: string): string {
    if text == "" then ""
    else if StartsEscape(text) then [(16 * HexValue(text[1]) + HexValue(text[2])) as char] + Decoded(text[3..])
    else [if text[0] == '+' then ' ' else text[0]] + Decoded(text[1..])
  }

  /** The address that the server looks for. */
  function Asked(address: string): string {
    Decoded(First(Kept(address)))
  }

  predicate Printable(c: char) {
    '!' <= c <= '~'
  }

  predicate Control(c: char) {
    c <= ' ' || c == 0x7f as char
  }

  predicate Sendable(address: string) {
    forall c | c in Kept(address) :: Printable(c)
  }

  /** The query reaches the server and asks for the address itself. */
  predicate Named(address: string) {
    Sendable(address) && Asked(address) == address
  }

  /** The conditions that an address brings along behind an `&`. */
  function Further(address: string): Option<string> {
    var text, first := Kept(address), First(Kept(address));
    FirstIsPrefix(text);
    if |first| < |text| then Some(text[|first| + 1..]) else None
  }

  lemma {:induction false} FirstIsPrefix(text: string)
    ensures |First(text)| <= |text| && First(text) == text[..|First(text)|]
    ensures First(text) == text <==> '&' !in text
    ensures |First(text)| == |text| ==> First(text) == text
  {
    if text != "" && text[0] != '&' {
      FirstIsPrefix(text[1..]);
      assert text == [text[0]] + text[1..];
    }
  }

  /**
   * What the server makes of what an `&` brings along: whether it takes it, and which rows pass it,
   * read as a condition on each row.
   */
  datatype Server<!Item> = Server(takes: string -> bool, passes: (string, Item) -> bool)

  /** The server answers the query rather than failing it. */
  predicate Answered<Item>(server: Server<Item>, address: string) {
    Sendable(address) && (Further(address).Some? ==> server.takes(Further(address).value))
  }

  predicate Passes<Item>(server: Server<Item>, address: string, item: Item) {
    Further(address).Some? ==> server.passes(Further(address).value, item)
  }

  // ---------------------------------------------------------------- which addresses name themselves

  /** Nothing in the address means anything to the query. */
  predicate Inert(address: string) {
    && (forall c | c in address :: Printable(c) && c != '#' && c != '&' && c != '+')
    && (forall i | 0 <= i < |address| :: !StartsEscape(address[i..]))
  }

  lemma {:induction false} KeptIsShorter(text: string)
    requires '#' in text
    ensures |Kept'(text)| < |text|
  {
    if text[|text| - 1] != '#' {
      KeptIsShorter(text[..|text| - 1]);
    }
  }

  lemma {:induction false} DecodedIsNoLonger(text: string)
    ensures |Decoded(text)| <= |text|
  {
    if text != "" {
      if StartsEscape(text) {
        DecodedIsNoLonger(text[3..]);
      } else {
        DecodedIsNoLonger(text[1..]);
      }
    }
  }

  /** Decoding leaves exactly the texts without `+` and escapes alone. */
  lemma {:induction false} DecodedAlone(text: string)
    ensures Decoded(text) == text <==> '+' !in text && forall i | 0 <= i < |text| :: !StartsEscape(text[i..])
  {
    if text != "" {
      assert text[0..] == text;
      if StartsEscape(text) {
        DecodedIsNoLonger(text[3..]);
      } else {
        DecodedAlone(text[1..]);
        DecodedStep(text);
        assert forall i | 0 <= i < |text| - 1 :: text[1..][i..] == text[i + 1..];
        assert text == [text[0]] + text[1..];
        NoEscapeStep(text);
      }
    }
  }

  lemma DecodedStep(text: string)
    requires text != "" && !StartsEscape(text)
    ensures Decoded(text) == text <==> text[0] != '+' && Decoded(text[1..]) == text[1..]
  {
    var head := [if text[0] == '+' then ' ' else text[0]];
    assert Decoded(text) == head + Decoded(text[1..]);
    assert text == [text[0]] + text[1..];
    if Decoded(text) == text {
      assert Decoded(text)[0] == text[0] && Decoded(text)[1..] == text[1..];
    }
  }

  lemma NoEscapeStep(text: string)
    requires text != "" && !StartsEscape(text)
    ensures (forall i | 0 <= i < |text| :: !StartsEscape(text[i..]))
              <==> forall i | 0 <= i < |text[1..]| :: !StartsEscape(text[1..][i..])
  {
    hide StartsEscape;
    assert text[0..] == text;
    forall i | 0 <= i < |text[1..]|
      ensures text[1..][i..] == text[i + 1..]
    {
    }
    if forall i | 0 <= i < |text[1..]| :: !StartsEscape(text[1..][i..]) {
      forall i | 0 <= i < |text|
        ensures !StartsEscape(text[i..])
      {
        if i > 0 {
          assert !StartsEscape(text[1..][i - 1..]);
        }
      }
    }
  }

  /** An address names itself exactly when nothing in it means anything to the query. */
  lemma NamedExactlyWhen(address: string)
    ensures Named(address) <==> Inert(address)
    ensures Named(address) ==> Further(address).None? && '#' !in address
  {
    hide Decoded, StartsEscape;
    FirstIsPrefix(Kept(address));
    DecodedIsNoLonger(First(Kept(address)));
    if '#' in address {
      KeptIsShorter(address);
    } else if '&' !in address {
      DecodedAlone(address);
    }
  }

  /** Without a `%` there is no escape. */
  lemma PlainIsNamed(address: string)
    requires forall c | c in address :: Printable(c) && c != '#' && c != '&' && c != '+' && c != '%'
    ensures Named(address)
  {
    hide Named;
    forall i | 0 <= i < |address|
      ensures !StartsEscape(address[i..])
    {
      assert address[i..][0] == address[i] && address[i] in address;
    }
    NamedExactlyWhen(address);
  }

  /** Behind a `#` an address may go on: the server is asked for what stands before. */
  lemma CutAddress(address: string, tail: string)
    requires Named(address) && '#' !in tail
    ensures var cut := address + "#" + tail;
            Asked(cut) == address && Sendable(cut) && Further(cut).None? && '#' in cut && !Named(cut)
  {
    hide Decoded, First;
    NamedExactlyWhen(address);
    KeptBeforeTail(address, tail);
    assert (address + "#" + tail)[|address|] == '#';
  }

  lemma {:induction false} KeptBeforeTail(address: string, tail: string)
    requires '#' !in tail
    ensures '#' in address + "#" + tail && Kept'(address + "#" + tail) == address
  {
    var cut := address + "#" + tail;
    assert cut[|address|] == '#';
    if tail == "" {
      assert cut[..|cut| - 1] == address;
    } else {
      var n := |tail| - 1;
      KeptBeforeTail(address, tail[..n]);
      assert cut[..|cut| - 1] == address + "#" + tail[..n];
      assert cut[|cut| - 1] == tail[n];
    }
  }

  // ---------------------------------------------------------------- what a query asks for

  /** The digit, in either case, has the value. */
  predicate StandsFor(digit: char, value: nat) {
    value < 16 && ("0123456789ABCDEF"[value] == digit || "0123456789abcdef"[value] == digit)
  }

  lemma DigitsAre(digit: char, value: nat)
    ensures StandsFor(digit, value) <==> HashChain.IsHexDigit(digit) && HexValue(digit) == value
  {
    if value < 10 {
      assert "0123456789ABCDEF"[value] == ('0' as int + value) as char;
      assert "0123456789abcdef"[value] == ('0' as int + value) as char;
    } else if value < 16 {
      assert "0123456789ABCDEF"[value] == ('A' as int + value - 10) as char;
      assert "0123456789abcdef"[value] == ('a' as int + value - 10) as char;
    }
  }

  /** `%` with two hexadecimal digits is the character of that code, `+` is a blank, the rest is itself. */
  lemma DecodedMeans(c: char, a: char, b: char, x: nat, y: nat, rest: string)
    ensures Decoded("") == ""
    ensures StandsFor(a, x) && StandsFor(b, y) ==>
              Decoded(['%', a, b] + rest) == [(16 * x + y) as char] + Decoded(rest)
    ensures Decoded("+" + rest) == " " + Decoded(rest)
    ensures c != '%' && c != '+' ==> Decoded([c] + rest) == [c] + Decoded(rest)
    ensures (forall v: nat :: !StandsFor(a, v)) || (forall v: nat :: !StandsFor(b, v)) ==>
              Decoded(['%', a, b] + rest) == "%" + Decoded([a, b] + rest)
  {
    DigitsAre(a, x);
    DigitsAre(b, y);
    assert (['%', a, b] + rest)[3..] == rest && (['%', a, b] + rest)[1..] == [a, b] + rest;
    assert ("+" + rest)[1..] == rest && ([c] + rest)[1..] == rest;
    if HashChain.IsHexDigit(a) && HashChain.IsHexDigit(b) {
      DigitsAre(a, HexValue(a));
      DigitsAre(b, HexValue(b));
    }
  }

  /** What an address brings along behind an `&`, and that the server is asked for what stands before. */
  lemma ConditionAddress(address: string, further: string)
    requires Named(address) && (forall c | c in further :: Printable(c) && c != '#')
    ensures var long := address + "&" + further;
            Asked(long) == address && Sendable(long) && Further(long) == Some(further) && !Named(long)
  {
    hide Decoded, StartsEscape;
    NamedExactlyWhen(address);
    var long := address + "&" + further;
    assert '#' !in long;
    FirstBeforeCondition(address, further);
    assert long[|address| + 1..] == further;
    assert First(address) == address by { FirstIsPrefix(address); }
  }

  lemma {:induction false} FirstBeforeCondition(address: string, further: string)
    requires '&' !in address
    ensures First(address + "&" + further) == address
  {
    var long := address + "&" + further;
    if address != "" {
      FirstBeforeCondition(address[1..], further);
      assert long[1..] == address[1..] + "&" + further;
      assert address == [address[0]] + address[1..];
    }
  }

  /** Only what stands before the last `#` leaves. */
  lemma KeptMeans(address: string, tail: string)
    requires '#' !in tail
    ensures Kept(tail) == tail && Kept(address + "#" + tail) == address
  {
    KeptBeforeTail(address, tail);
  }
}

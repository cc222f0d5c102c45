/** Handle names of an SFTP session: "h" followed by a counter in hexadecimal. */
module Handles {
  import opened Options

  function HexDigit(d: nat): char
    requires d < 16
  {
    if d < 10 then '0' + d as char else 'a' + (d - 10) as char
  }

  function Hex(n: nat): (s: string)
    ensures s != "" && (|s| == 1 ==> n < 16)
  {
    if n < 16 then [HexDigit(n)] else Hex(n / 16) + [HexDigit(n % 16)]
  }

  function HandleName(id: nat): string {
    "h" + Hex(id)
  }

  /** The value of a lower-case hexadecimal digit. */
  function DigitValue(c: char): Option<nat> {
    if '0' <= c <= '9' then Some((c - '0') as nat)
    else if 'a' <= c <= 'f' then Some(10 + (c - 'a') as nat)
    else None
  }

  /** The number that a text of such digits stands for. */
  function FromHex(s: string): Option<nat> {
    if s == "" then Some(0)
    else
      var front, last := FromHex(s[..|s| - 1]), DigitValue(s[|s| - 1]);
      if front.Some? && last.Some? then Some(front.value * 16 + last.value) else None
  }

  /** A handle name is its number in lower-case hexadecimal digits, without leading zeros. */
  lemma {:induction false} HexReads(n: nat)
    ensures FromHex(Hex(n)) == Some(n) && (Hex(n)[0] == '0' <==> n == 0)
    decreases n
  {
    var s := Hex(n);
    if n < 16 {
      assert s[..0] == "";
    } else {
      HexReads(n / 16);
      assert s[..|s| - 1] == Hex(n / 16);
    }
  }

  lemma HandleNamesDiffer(a: nat, b: nat)
    ensures HandleName(a) == HandleName(b) <==> a == b
  {
    if HandleName(a) == HandleName(b) {
      assert HandleName(a)[1..] == Hex(a) && HandleName(b)[1..] == Hex(b);
      HexReads(a);
      HexReads(b);
    }
  }

  /** The name belongs to an id below `id`. */
  ghost predicate NamedBelow(h: string, id: nat) {
    exists k: nat :: k < id && HandleName(k) == h
  }

  /** The names in a table that a search from `id` on may still run into. */
  ghost function Ahead(names: set<string>, id: nat): set<string> {
    set h | h in names && !NamedBelow(h, id)
  }

  lemma AheadShrinks(names: set<string>, id: nat)
    requires HandleName(id) in names
    ensures Ahead(names, id + 1) < Ahead(names, id)
  {
    var h := HandleName(id);
    assert !NamedBelow(h, id) by {
      forall k: nat | k < id
        ensures HandleName(k) != h
      {
        HandleNamesDiffer(k, id);
      }
    }
    assert NamedBelow(h, id + 1);
    assert h in Ahead(names, id) && h !in Ahead(names, id + 1);
    forall g | g in Ahead(names, id + 1)
      ensures g in Ahead(names, id)
    {
    }
  }

  /** The first id from `id` on whose name is not in the table. */
  function FreeId(names: set<string>, id: nat): (free: nat)
    ensures id <= free && HandleName(free) !in names
    ensures forall k: nat :: id <= k < free ==> HandleName(k) in names
    decreases Ahead(names, id)
  {
    if HandleName(id) in names then
      AheadShrinks(names, id);
      FreeId(names, id + 1)
    else id
  }
}

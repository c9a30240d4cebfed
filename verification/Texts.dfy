// What the texts of replies say to a client that reads them: fields end at CRLF.
module Texts {
  import opened Wrappers
  import opened AuctionModel
  import Numerals

  const CRLF := "\r\n"

  // ---- reading ----

  // Where the first CRLF stands, and the last.
  function FirstBreak(s: string): Option<nat> {
    if |s| < 2 then None
    else if s[0] == '\r' && s[1] == '\n' then Some(0)
    else
      var k := FirstBreak(s[1..]);
      if k.None? then None else Some(k.value + 1)
  }

  function LastBreak(s: string): Option<nat> {
    var n := |s|;
    if n < 2 then None
    else if s[n - 2] == '\r' && s[n - 1] == '\n' then Some(n - 2)
    else LastBreak(s[..n - 1])
  }

  // The text before the first CRLF and the text after it; the same at the last.
  function CutFirst(s: string): Option<(string, string)> {
    var k := FirstBreak(s);
    if k.None? || |s| < k.value + 2 then None else Some((s[..k.value], s[k.value + 2..]))
  }

  function CutLast(s: string): Option<(string, string)> {
    var k := LastBreak(s);
    if k.None? || |s| < k.value + 2 then None else Some((s[..k.value], s[k.value + 2..]))
  }

  function ReadNumber(s: string): Option<int> { Numerals.ReadSigned(s, 10) }

  // A text that ends with a number on a line of its own.
  function ReadPriced(s: string): Option<(string, int)> {
    var cut := CutLast(s);
    if cut.None? then None
    else
      var price := ReadNumber(cut.value.1);
      if price.None? then None else Some((cut.value.0, price.value))
  }

  // ANCLOSED: the id, and the winner and the price, or two empty lines.
  datatype Closing = Closing(id: int, sold: Option<(string, int)>)

  function ReadClosing(s: string): Option<Closing> {
    var cut := CutFirst(s);
    if cut.None? then None
    else
      var id := ReadNumber(cut.value.0);
      if id.None? then None
      else if cut.value.1 == CRLF + CRLF then Some(Closing(id.value, None))
      else
        var sold := ReadPriced(cut.value.1);
        if sold.None? then None else Some(Closing(id.value, sold))
  }

  // ANUPDATE: the id, the item, the bidder and the bid.
  datatype Update = Update(id: int, item: string, bidder: string, bid: int)

  function ReadUpdate(s: string): Option<Update> {
    var cut := CutFirst(s);
    if cut.None? then None
    else
      var id, item := ReadNumber(cut.value.0), CutFirst(cut.value.1);
      if id.None? || item.None? then None
      else
        var bid := ReadPriced(item.value.1);
        if bid.None? then None else Some(Update(id.value, item.value.0, bid.value.0, bid.value.1))
  }

  // ---- reading gives back what was written ----

  lemma {:induction false} FirstBreakOf(a: string, b: string)
    requires OneLine(a)
    ensures FirstBreak(a + CRLF + b) == Some(|a|)
    ensures CutFirst(a + CRLF + b) == Some((a, b))
  {
    var s := a + CRLF + b;
    if |a| > 0 {
      FirstBreakOf(a[1..], b);
      assert s[1..] == a[1..] + CRLF + b;
      assert s[0] == a[0] && a[0] in a;
    }
    assert s[..|a|] == a && s[|a| + 2..] == b;
  }

  lemma {:induction false} LastBreakOf(a: string, b: string)
    requires OneLine(b)
    ensures LastBreak(a + CRLF + b) == Some(|a|)
    ensures CutLast(a + CRLF + b) == Some((a, b))
  {
    var s := a + CRLF + b;
    var n := |b|;
    if n > 0 {
      LastBreakOf(a, b[..n - 1]);
      assert s[..|s| - 1] == a + CRLF + b[..n - 1];
      assert s[|s| - 1] == b[n - 1] && b[n - 1] in b;
    }
    assert s[..|a|] == a && s[|a| + 2..] == b;
  }

  lemma DecReads(v: int)
    ensures OneLine(Dec(v)) && Dec(v) != "" && ReadNumber(Dec(v)) == Some(v)
  {
    Numerals.SignedCharacters(v, 10);
    Numerals.ReadSignedSigned(v, 10);
  }

  lemma PricedReads(a: string, v: int)
    ensures ReadPriced(a + CRLF + Dec(v)) == Some((a, v))
  {
    DecReads(v);
    LastBreakOf(a, Dec(v));
  }

  // An announcement says which auction has closed, to whom and for how much it was sold,
  // or that it was not sold.
  lemma ClosedTextReads(a: Auction)
    ensures ReadClosing(ClosedText(a))
         == Some(Closing(a.id, if a.winner.None? then None else Some((a.winner.value, a.bid))))
  {
    var rest := if a.winner.None? then CRLF + CRLF else a.winner.value + CRLF + Dec(a.bid);
    assert ClosedText(a) == Dec(a.id) + CRLF + rest;
    DecReads(a.id);
    FirstBreakOf(Dec(a.id), rest);
    if a.winner.Some? {
      PricedReads(a.winner.value, a.bid);
      NotEmptyLines(a.winner.value, a.bid);
    }
  }

  lemma NotEmptyLines(a: string, v: int)
    ensures a + CRLF + Dec(v) != CRLF + CRLF
  {
    DecReads(v);
    var s := a + CRLF + Dec(v);
    assert s[|s| - 1] == Dec(v)[|Dec(v)| - 1] && s[|s| - 1] in Dec(v);
  }

  // An update says which auction, what item, who bids and how much.
  lemma UpdateTextReads(a: Auction, bidder: string)
    requires OneLine(a.name)
    ensures ReadUpdate(UpdateText(a, bidder)) == Some(Update(a.id, a.name, bidder, a.bid))
  {
    var price := bidder + CRLF + Dec(a.bid);
    var rest := a.name + CRLF + price;
    assert UpdateText(a, bidder) == Dec(a.id) + CRLF + rest;
    DecReads(a.id);
    FirstBreakOf(Dec(a.id), rest);
    FirstBreakOf(a.name, price);
    PricedReads(bidder, a.bid);
  }
}

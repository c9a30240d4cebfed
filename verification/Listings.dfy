// The listing reply can be read back: it names every listed auction and nothing else.
module Listings {
  import opened Wrappers
  import opened Seqs
  import Numerals
  import opened AuctionModel
  import opened AuctionRules
  import opened Reachability

  datatype Row = Row(id: int, name: string, binPrice: int, watchers: int, bid: int, duration: int)

  function RowOf(a: Auction): Row {
    Row(a.id, a.name, a.binPrice, a.numberOfWatchers, a.bid, a.duration)
  }

  // ---- reading a listing ----

  // The lines of a text, each ended by a newline.
  function Lines(text: string): seq<string> {
    var k := FirstIndex(text, c => c == '\n');
    if k == |text| then [] else [text[..k]] + Lines(text[k + 1..])
  }

  // What stands before and after the last ';'.
  function CutLast(s: string): Option<(string, string)> {
    if |s| == 0 then None
    else
      var n := |s| - 1;
      if s[n] == ';' then Some((s[..n], ""))
      else
        var cut := CutLast(s[..n]);
        if cut.None? then None else Some((cut.value.0, cut.value.1 + [s[n]]))
  }

  // The number behind the last ';', and the rest.
  function CutNumber(s: string): Option<(string, int)> {
    var cut := CutLast(s);
    if cut.None? then None
    else
      var n := Numerals.ReadSigned(cut.value.1, 10);
      if n.None? then None else Some((cut.value.0, n.value))
  }

  // A line is cut at its first ';' and then at its last four: the name may contain more.
  function ReadLine(line: string): Option<Row> {
    var k := FirstIndex(line, c => c == ';');
    if k == |line| then None
    else
      var id := Numerals.ReadSigned(line[..k], 10);
      var duration := CutNumber(line[k + 1..]);
      if id.None? || duration.None? then None
      else
        var bid := CutNumber(duration.value.0);
        if bid.None? then None
        else
          var watchers := CutNumber(bid.value.0);
          if watchers.None? then None
          else
            var price := CutNumber(watchers.value.0);
            if price.None? then None
            else
              Some(Row(id.value, price.value.0, price.value.1, watchers.value.1, bid.value.1, duration.value.1))
  }

  function ReadListing(text: string): (rows: seq<Option<Row>>)
    ensures |rows| == |Lines(text)|
    ensures forall i :: 0 <= i < |rows| ==> rows[i] == ReadLine(Lines(text)[i])
  {
    seq(|Lines(text)|, i requires 0 <= i < |Lines(text)| => ReadLine(Lines(text)[i]))
  }

  // ---- it gives back what was written ----

  lemma {:induction false} CutLastOf(a: string, b: string)
    requires ';' !in b
    ensures CutLast(a + ";" + b) == Some((a, b))
  {
    var s := a + ";" + b;
    var n := |s| - 1;
    if |b| == 0 {
      assert s[..n] == a;
    } else {
      assert s[..n] == a + ";" + b[..|b| - 1];
      CutLastOf(a, b[..|b| - 1]);
      assert b[..|b| - 1] + [s[n]] == b;
    }
  }

  lemma DecIsPlain(v: int)
    ensures ';' !in Dec(v) && '\n' !in Dec(v)
    ensures Numerals.ReadSigned(Dec(v), 10) == Some(v)
  {
    Numerals.SignedCharacters(v, 10);
    Numerals.ReadSignedSigned(v, 10);
  }

  lemma CutNumberOf(a: string, v: int)
    ensures CutNumber(a + ";" + Dec(v)) == Some((a, v))
  {
    DecIsPlain(v);
    CutLastOf(a, Dec(v));
  }

  lemma FirstIndexOf(a: string, c: char, b: string)
    requires c !in a
    ensures FirstIndex(a + [c] + b, x => x == c) == |a|
  {
    var s := a + [c] + b;
    assert s[|a|] == c;
    assert forall i :: 0 <= i < |a| ==> s[i] == a[i] && s[i] in a;
  }

  function Body(a: Auction): string {
    Dec(a.id) + ";" + a.name + ";" + Dec(a.binPrice) + ";" + Dec(a.numberOfWatchers) + ";"
    + Dec(a.bid) + ";" + Dec(a.duration)
  }

  // The part of a line behind the first ';'.
  function Tail(a: Auction): string {
    a.name + ";" + Dec(a.binPrice) + ";" + Dec(a.numberOfWatchers) + ";" + Dec(a.bid) + ";" + Dec(a.duration)
  }

  lemma CutTail(a: Auction)
    ensures var s2 := a.name + ";" + Dec(a.binPrice) + ";" + Dec(a.numberOfWatchers);
            && CutNumber(Tail(a)) == Some((s2 + ";" + Dec(a.bid), a.duration))
            && CutNumber(s2 + ";" + Dec(a.bid)) == Some((s2, a.bid))
            && CutNumber(s2) == Some((a.name + ";" + Dec(a.binPrice), a.numberOfWatchers))
            && CutNumber(a.name + ";" + Dec(a.binPrice)) == Some((a.name, a.binPrice))
  {
    var s1 := a.name + ";" + Dec(a.binPrice);
    var s2 := s1 + ";" + Dec(a.numberOfWatchers);
    CutNumberOf(s2 + ";" + Dec(a.bid), a.duration);
    CutNumberOf(s2, a.bid);
    CutNumberOf(s1, a.numberOfWatchers);
    CutNumberOf(a.name, a.binPrice);
  }

  lemma CutHead(a: Auction)
    ensures var k := FirstIndex(Body(a), c => c == ';');
            && k < |Body(a)| && Body(a)[..k] == Dec(a.id) && Body(a)[k + 1..] == Tail(a)
  {
    DecIsPlain(a.id);
    BodySplits(a);
    CutFirst(Dec(a.id), Tail(a));
  }

  lemma BodySplits(a: Auction)
    ensures Body(a) == Dec(a.id) + [';'] + Tail(a)
  {
  }

  lemma CutFirst(head: string, tail: string)
    requires ';' !in head
    ensures var s := head + [';'] + tail;
            var k := FirstIndex(s, c => c == ';');
            k < |s| && s[..k] == head && s[k + 1..] == tail
  {
    FirstIndexOf(head, ';', tail);
  }

  lemma ReadLineOf(a: Auction)
    ensures ReadLine(Body(a)) == Some(RowOf(a))
  {
    CutHead(a);
    DecIsPlain(a.id);
    CutTail(a);
  }

  lemma BodyIsOneLine(a: Auction)
    requires '\n' !in a.name
    ensures '\n' !in Body(a) && Line(a) == Body(a) + "\n"
  {
    DecIsPlain(a.id);
    DecIsPlain(a.binPrice);
    DecIsPlain(a.numberOfWatchers);
    DecIsPlain(a.bid);
    DecIsPlain(a.duration);
  }

  lemma FirstLine(text: string, more: string) returns (k: nat)
    requires |text| > 0 && text[|text| - 1] == '\n'
    ensures k < |text| && k == FirstIndex(text, c => c == '\n')
    ensures Lines(text) == [text[..k]] + Lines(text[k + 1..])
    ensures Lines(text + more) == [text[..k]] + Lines(text[k + 1..] + more)
  {
    k := FirstIndex(text, c => c == '\n');
    var all := text + more;
    assert all == text[..k] + ['\n'] + (text[k + 1..] + more);
    FirstIndexOf(text[..k], '\n', text[k + 1..] + more);
    assert all[..k] == text[..k] && all[k + 1..] == text[k + 1..] + more;
  }

  lemma LastLine(line: string)
    requires '\n' !in line
    ensures Lines(line + "\n") == [line]
  {
    var all := line + "\n";
    assert all == line + ['\n'] + "";
    FirstIndexOf(line, '\n', "");
    assert all[..|line|] == line && all[|line| + 1..] == "";
  }

  lemma {:induction false} LinesSnoc(text: string, line: string, end: string)
    requires '\n' !in line && end == line + "\n"
    requires Complete(text)
    ensures Lines(text + end) == Lines(text) + [line]
    decreases |text|
  {
    if |text| == 0 {
      LastLine(line);
      assert text + end == end;
    } else {
      var k := FirstLine(text, end);
      LinesSnoc(text[k + 1..], line, end);
    }
  }

  ghost predicate Complete(text: string) {
    |text| > 0 ==> text[|text| - 1] == '\n'
  }

  // The rows of a list of auctions, each read successfully.
  function Rows(auctions: seq<Auction>): seq<Option<Row>> {
    if |auctions| == 0 then []
    else Rows(auctions[..|auctions| - 1]) + [Some(RowOf(auctions[|auctions| - 1]))]
  }

  lemma ReadSnoc(before: string, a: Auction)
    requires Complete(before) && '\n' !in a.name
    ensures ReadListing(before + Line(a)) == ReadListing(before) + [Some(RowOf(a))]
    ensures Complete(before + Line(a))
  {
    BodyIsOneLine(a);
    LinesSnoc(before, Body(a), Line(a));
    ReadLineOf(a);
  }

  // For any auctions whose names hold no newline, with or without ';', the listing
  // reads back as exactly their rows, in order.
  lemma {:induction false} ListingDecodes(auctions: seq<Auction>)
    requires forall i :: 0 <= i < |auctions| ==> '\n' !in auctions[i].name
    ensures ReadListing(Listing(auctions)) == Rows(auctions)
    ensures Complete(Listing(auctions))
  {
    var n := |auctions|;
    if n > 0 {
      ListingDecodes(auctions[..n - 1]);
      ReadSnoc(Listing(auctions[..n - 1]), auctions[n - 1]);
    }
  }

  // In every reachable state.
  lemma ServerListingDecodes(r: Run)
    requires Legal(r)
    ensures ReadListing(Listing(After(r).listed)) == Rows(After(r).listed)
  {
    Reachable(r);
    forall i | 0 <= i < |After(r).listed| ensures '\n' !in After(r).listed[i].name {
      assert ListedOk(After(r).users, After(r).listed[i]);
    }
    ListingDecodes(After(r).listed);
  }
}

/**
  A two-part message scanned through the component in either order, and the greeting
  `<<PART 1 of 2>>Hello, ` / `<<PART 2 of 2>>World!` as an instance of it. Each content
  is trimmed, so the space that ends the first part of the greeting is lost.
*/
module Greeting {
  import opened Options
  import opened ChunkCodec
  import opened Reassembly
  import opened Scanner

  /**
    The greeting's two texts decoded in either order and handed to the decode callback,
    each followed by the effect: the second refresh assembles `Hello,World!`, because
    trimming drops the space that ends the first part.
  */
  method ScanGreeting(firstPartFirst: bool) returns (partial: string, final: string, text: Option<string>)
    ensures partial == ProgressMessage(1, 2)
    ensures final == SuccessMessage
    ensures text == Some("Hello,World!")
  {
    var s1, s2 := "<<PART 1 of 2>>Hello, ", "<<PART 2 of 2>>World!";
    GreetingFirstParses();
    GreetingSecondParses();
    GreetingJoined();
    if firstPartFirst {
      partial, final, text := ScanTwoTexts(s1, s2, "Hello,", "World!");
    } else {
      partial, final, text := ScanTwoTexts(s2, s1, "Hello,", "World!");
    }
  }

  /**
    Two decoded texts that parse to parts 1 and 2 of a two-part message, in either order,
    given to the decode callback one after the other, each followed by the effect.
  */
  method ScanTwoTexts(t1: string, t2: string, a: string, b: string)
    returns (partial: string, final: string, text: Option<string>)
    requires || (Parse(t1) == Some(Chunk(1, 2, a)) && Parse(t2) == Some(Chunk(2, 2, b)))
             || (Parse(t1) == Some(Chunk(2, 2, b)) && Parse(t2) == Some(Chunk(1, 2, a)))
    ensures partial == ProgressMessage(1, 2)
    ensures final == SuccessMessage
    ensures text == Some(a + b)
  {
    ghost var c1, c2 := Parse(t1).value, Parse(t2).value;
    ArrivedEitherWay(a, b, c1, c2);
    var scanner := new QRScanner();
    OfferParsed(scanner, t1, c1);
    scanner.Refresh();
    partial := scanner.status;
    OfferParsed(scanner, t2, c2);
    scanner.Refresh();
    AssembleTwo(a, b);
    final := scanner.status;
    text := scanner.fullText;
  }

  /** The decode callback on a live subscription, for a text that parses to `c`. */
  method OfferParsed(scanner: QRScanner, t: string, ghost c: Chunk)
    requires scanner.Valid() && !scanner.stopped && Parse(t) == Some(c)
    modifies scanner
    ensures scanner.Valid() && !scanner.stopped
    ensures scanner.chunks == MergeChunk(old(scanner.chunks), c)
    ensures scanner.totalParts == AdoptTotal(old(scanner.totalParts), c)
  {
    scanner.Offer(Some(t));
  }

  lemma GreetingJoined()
    ensures "Hello," + "World!" == "Hello,World!"
  {
  }

  /** Parts 1 and 2 of 2 merged in either order: the total is 2 and the map holds both. */
  lemma ArrivedEitherWay(a: string, b: string, c1: Chunk, c2: Chunk)
    requires [c1, c2] == [Chunk(1, 2, a), Chunk(2, 2, b)] || [c1, c2] == [Chunk(2, 2, b), Chunk(1, 2, a)]
    ensures AdoptTotal(None, c1) == Some(2) && |MergeChunk(map[], c1)| == 1
    ensures MergeChunk(MergeChunk(map[], c1), c2) == map[1 := a, 2 := b]
  {
    if c1.part == 2 {
      SwapTwo(a, b);
    }
  }

  lemma SwapTwo(a: string, b: string)
    ensures map[2 := b][1 := a] == map[1 := a, 2 := b]
  {
    var m, m' := map[2 := b][1 := a], map[1 := a, 2 := b];
    assert m.Keys == m'.Keys;
  }

  lemma AssembleTwo(a: string, b: string)
    ensures Assemble(map[1 := a, 2 := b], 2) == a + b
  {
    var m := map[1 := a, 2 := b];
    assert Slots(m, 2) == [a, b];
    assert [a, b][1..] == [b] && [b][1..] == [];
    assert Concat([b]) == b + "" == b;
  }

  /** The greeting's first part loses its trailing space to `trim`; the second is kept as it is. */
  lemma GreetingFirstContent()
    ensures Trim("Hello, ") == "Hello,"
  {
    assert "Hello, " == [] + "Hello," + " ";
    TrimSurrounded([], "Hello,", " ");
  }

  /** The greeting's first scanned text is part 1 of 2 with content `Hello,`. */
  lemma GreetingFirstParses()
    ensures Parse("<<PART 1 of 2>>Hello, ") == Some(Chunk(1, 2, "Hello,"))
  {
    GreetingFirstContent();
    OneAndTwo();
    ParseFramed("1", "2", "Hello, ");
    FirstFramed();
  }

  /** The greeting's second scanned text is part 2 of 2 with content `World!`. */
  lemma GreetingSecondParses()
    ensures Parse("<<PART 2 of 2>>World!") == Some(Chunk(2, 2, "World!"))
  {
    GreetingSecondContent();
    OneAndTwo();
    ParseFramed("2", "2", "World!");
    SecondFramed();
  }

  lemma OneAndTwo()
    ensures Decimal(1) == "1" && Decimal(2) == "2"
    ensures IsNumeral("1") && IsNumeral("2") && NumeralValue("1") == 1 && NumeralValue("2") == 2
  {
    DecimalRoundTrip(1);
    DecimalRoundTrip(2);
  }

  /** The first literal text is the header for parts `1` of `2` around `Hello, `, built one suffix at a time. */
  lemma FirstFramed()
    ensures Framed("1", "2", "Hello, ") == "<<PART 1 of 2>>Hello, "
  {
    assert CloseMarker + "Hello, " == ">>Hello, ";
    assert "2" + ">>Hello, " == "2>>Hello, ";
    assert OfMarker + "2>>Hello, " == " of 2>>Hello, ";
    assert "1" + " of 2>>Hello, " == "1 of 2>>Hello, ";
    assert PartMarker + "1 of 2>>Hello, " == "<<PART 1 of 2>>Hello, ";
  }

  /** The second literal text is the header for parts `2` of `2` around `World!`. */
  lemma SecondFramed()
    ensures Framed("2", "2", "World!") == "<<PART 2 of 2>>World!"
  {
    assert CloseMarker + "World!" == ">>World!";
    assert "2" + ">>World!" == "2>>World!";
    assert OfMarker + "2>>World!" == " of 2>>World!";
    assert "2" + " of 2>>World!" == "2 of 2>>World!";
    assert PartMarker + "2 of 2>>World!" == "<<PART 2 of 2>>World!";
  }

  lemma GreetingSecondContent()
    ensures Trim("World!") == "World!"
  {
    TrimTrimmed("World!");
  }
}

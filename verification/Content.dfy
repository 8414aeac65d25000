/**
 Content addressing: blocks and their CIDs, the fixed-size splitter, the file node and its
 canonical JSON (internal/merkle; the splitter as docs/ARCHITECTURE.md describes it).
 */
module Content {
  import opened Wrappers
  import opened XorDistance

  /** A Go byte slice or string. */
  type Bytes = string
  type Cid = string

  const CHUNK_SIZE := 256 * 1024

  predicate IsCid(s: string) {
    KeyFromHex(s).Some?
  }

  predicate AreCids(cids: seq<Cid>) {
    forall c | c in cids :: IsCid(c)
  }

  /**
   What a node takes from its libraries: the block hash (SHA-256 of FIPS 180-4, printed in hex)
   and the reading of a JSON document into a file node's chunk list. The reader may accept any
   further documents, as encoding/json does.
   */
  datatype Env = Env(hash: Bytes -> Cid, unmarshal: Bytes -> Option<seq<Cid>>) {
    ghost predicate Valid() {
      && (forall b: Bytes :: IsCid(hash(b)))
      && (forall cids: seq<Cid> | AreCids(cids) :: unmarshal(EncodeFileNode(cids)) == Some(cids))
    }
  }

  /** Nothing but the block itself hashes to the CID of any of these blocks. */
  ghost predicate NoSecondPreimage(e: Env, blocks: set<Bytes>) {
    forall b: Bytes, x: Bytes | b in blocks && e.hash(x) == e.hash(b) :: x == b
  }

  /** The splitter: pieces of exactly size bytes, the last one possibly shorter, none empty. */
  function Split(file: Bytes, size: nat): (pieces: seq<Bytes>)
    requires size > 0
    ensures forall p | p in pieces :: 0 < |p| <= size
  {
    if file == "" then []
    else if |file| <= size then [file]
    else [file[..size]] + Split(file[size..], size)
  }

  function Chunks(file: Bytes): seq<Bytes> {
    Split(file, CHUNK_SIZE)
  }

  function Join(pieces: seq<Bytes>): Bytes {
    if pieces == [] then "" else Join(pieces[..|pieces| - 1]) + pieces[|pieces| - 1]
  }

  function Hashes(e: Env, blocks: seq<Bytes>): (cids: seq<Cid>)
    ensures |cids| == |blocks|
    ensures forall i | 0 <= i < |blocks| :: cids[i] == e.hash(blocks[i])
  {
    seq(|blocks|, i requires 0 <= i < |blocks| => e.hash(blocks[i]))
  }

  const HEAD: Bytes := "{\"chunks\":"
  const TAIL: Bytes := ",\"type\":\"file\"}"

  /** The elements of a JSON array of strings that need no escaping. */
  function EncodeItems(cids: seq<Cid>): Bytes {
    if cids == [] then ""
    else if |cids| == 1 then "\"" + cids[0] + "\""
    else "\"" + cids[0] + "\"," + EncodeItems(cids[1..])
  }

  /**
   The canonical JSON of a file node: keys in order and no spaces (sections 4 and 7 of
   RFC 8259). Copying an empty chunk list leaves a nil slice, which encodes as null.
   */
  function EncodeFileNode(cids: seq<Cid>): Bytes {
    HEAD + (if cids == [] then "null" else "[" + EncodeItems(cids) + "]") + TAIL
  }

  function RootBlock(e: Env, file: Bytes): Bytes {
    EncodeFileNode(Hashes(e, Chunks(file)))
  }

  /** The CID that AddFile returns for a file. */
  function RootCid(e: Env, file: Bytes): Cid {
    e.hash(RootBlock(e, file))
  }

  /** The blocks AddFile stores, in the order it replicates them: the root, then the chunks. */
  function BlocksOf(e: Env, file: Bytes): seq<Bytes> {
    [RootBlock(e, file)] + Chunks(file)
  }

  ghost function BlockSet(e: Env, file: Bytes): set<Bytes> {
    set b | b in BlocksOf(e, file)
  }

  lemma {:induction false} SplitLossless(file: Bytes, size: nat)
    requires size > 0
    ensures Join(Split(file, size)) == file
  {
    if file == "" {
    } else if |file| <= size {
      JoinHead(file, []);
    } else {
      SplitLossless(file[size..], size);
      JoinHead(file[..size], Split(file[size..], size));
    }
  }

  /** Every piece but the last is full. */
  lemma {:induction false} SplitFull(file: Bytes, size: nat)
    requires size > 0
    ensures forall i | 0 <= i < |Split(file, size)| - 1 :: |Split(file, size)[i]| == size
  {
    if |file| > size {
      SplitFull(file[size..], size);
    }
  }

  lemma {:induction false} JoinHead(first: Bytes, rest: seq<Bytes>)
    ensures Join([first] + rest) == first + Join(rest)
  {
    var all := [first] + rest;
    if rest == [] {
      assert all[..0] == [];
    } else {
      var n := |rest| - 1;
      JoinHead(first, rest[..n]);
      assert all[..n + 1] == [first] + rest[..n];
    }
  }

  lemma JoinLast(pieces: seq<Bytes>, last: Bytes)
    ensures Join(pieces + [last]) == Join(pieces) + last
  {
    assert (pieces + [last])[..|pieces|] == pieces;
  }

  /** The splitter and the hash list are injective under the no-second-preimage assumption. */
  lemma HashesInjective(e: Env, a: seq<Bytes>, b: seq<Bytes>)
    requires NoSecondPreimage(e, set x | x in a)
    requires Hashes(e, a) == Hashes(e, b)
    ensures a == b
  {
    forall i | 0 <= i < |a| ensures a[i] == b[i] {
      assert Hashes(e, a)[i] == Hashes(e, b)[i];
      assert e.hash(b[i]) == e.hash(a[i]) && a[i] in a;
    }
  }

  /** Root commitment: one root CID, one file. */
  lemma RootCommitment(e: Env, f: Bytes, g: Bytes)
    requires e.Valid() && NoSecondPreimage(e, BlockSet(e, f))
    ensures RootCid(e, f) == RootCid(e, g) <==> f == g
  {
    if RootCid(e, f) == RootCid(e, g) {
      assert RootBlock(e, f) in BlocksOf(e, f);
      var a, b := Hashes(e, Chunks(f)), Hashes(e, Chunks(g));
      assert e.unmarshal(EncodeFileNode(a)) == Some(a);
      assert e.unmarshal(EncodeFileNode(b)) == Some(b);
      HashesInjective(e, Chunks(f), Chunks(g));
      SplitLossless(f, CHUNK_SIZE);
      SplitLossless(g, CHUNK_SIZE);
    }
  }

  /** The chunks of a file: 256 KiB each but the last one, which is not empty, and together the file. */
  lemma ChunksOfFile(file: Bytes)
    ensures Join(Chunks(file)) == file
    ensures forall i | 0 <= i < |Chunks(file)| ::
              if i < |Chunks(file)| - 1 then |Chunks(file)[i]| == 262144 else 0 < |Chunks(file)[i]| <= 262144
  {
    SplitLossless(file, CHUNK_SIZE);
    SplitFull(file, CHUNK_SIZE);
    assert forall i | 0 <= i < |Chunks(file)| :: Chunks(file)[i] in Split(file, CHUNK_SIZE);
  }

  /** Strings one after the other, with this one between any two. */
  function Separated(items: seq<string>, sep: string): string {
    if items == [] then ""
    else if |items| == 1 then items[0]
    else Separated(items[..|items| - 1], sep) + sep + items[|items| - 1]
  }

  lemma {:induction false} SeparatedFromFirst(first: string, rest: seq<string>, sep: string)
    requires rest != []
    ensures Separated([first] + rest, sep) == first + sep + Separated(rest, sep)
  {
    var all, n := [first] + rest, |rest|;
    assert all[..n] == [first] + rest[..n - 1] && all[n] == rest[n - 1];
    if n > 1 {
      SeparatedFromFirst(first, rest[..n - 1], sep);
      assert first + sep + Separated(rest[..n - 1], sep) + sep + rest[n - 1]
          == first + sep + (Separated(rest[..n - 1], sep) + sep + rest[n - 1]);
    }
  }

  lemma {:induction false} ItemsAreQuoted(cids: seq<Cid>)
    requires cids != []
    ensures EncodeItems(cids) == "\"" + Separated(cids, "\",\"") + "\""
  {
    var c := cids[0];
    if |cids| > 1 {
      var rest := Separated(cids[1..], "\",\"");
      ItemsAreQuoted(cids[1..]);
      SeparatedFromFirst(c, cids[1..], "\",\"");
      assert [c] + cids[1..] == cids;
      assert "\"" + c + "\"," + ("\"" + rest + "\"") == "\"" + (c + "\",\"" + rest) + "\"";
    }
  }

  /** The document as a whole: the keys in alphabetical order, and the CIDs quoted, between commas. */
  lemma FileNodeText(cids: seq<Cid>)
    ensures EncodeFileNode(cids) ==
            if cids == [] then "{\"chunks\":null,\"type\":\"file\"}"
            else "{\"chunks\":[\"" + Separated(cids, "\",\"") + "\"],\"type\":\"file\"}"
  {
    if cids != [] {
      ItemsAreQuoted(cids);
      AroundItems(Separated(cids, "\",\""));
    } else {
      assert HEAD + "null" + TAIL == "{\"chunks\":null,\"type\":\"file\"}";
    }
  }

  lemma AroundItems(items: string)
    ensures HEAD + ("[" + ("\"" + items + "\"") + "]") + TAIL
         == "{\"chunks\":[\"" + items + "\"],\"type\":\"file\"}"
  {}

  /** Reads one quoted string without escapes. Returns it and what follows the closing quote. */
  function ReadQuoted(text: Bytes): (r: Option<(Cid, Bytes)>)
    ensures r.Some? ==> |r.value.1| < |text|
  {
    if text == "" || text[0] != '"' then None else ReadToQuote(text[1..])
  }

  function ReadToQuote(text: Bytes): (r: Option<(Cid, Bytes)>)
    ensures r.Some? ==> |r.value.1| < |text|
  {
    if text == "" then None
    else if text[0] == '"' then Some(("", text[1..]))
    else match ReadToQuote(text[1..])
      case None => None
      case Some((c, rest)) => Some((text[..1] + c, rest))
  }

  /** Reads quoted strings separated by commas, up to the closing bracket. */
  function ReadItems(text: Bytes): Option<(seq<Cid>, Bytes)>
    decreases |text|
  {
    match ReadQuoted(text)
    case None => None
    case Some((c, rest)) =>
      if rest == "" then None
      else if rest[0] == ']' then Some(([c], rest[1..]))
      else if rest[0] != ',' then None
      else match ReadItems(rest[1..])
        case None => None
        case Some((cids, end)) => Some(([c] + cids, end))
  }

  /** A reader of exactly the canonical layout. */
  function ReadFileNode(text: Bytes): Option<seq<Cid>> {
    if !(HEAD <= text) then None else
      var body := text[|HEAD|..];
      if body == "null" + TAIL then Some([])
      else if body == "" || body[0] != '[' then None
      else match ReadItems(body[1..])
        case None => None
        case Some((cids, end)) => if end == TAIL then Some(cids) else None
  }

  lemma {:induction false} ReadToQuoteFinds(c: Cid, rest: Bytes)
    requires '"' !in c
    ensures ReadToQuote(c + "\"" + rest) == Some((c, rest))
  {
    var text := c + "\"" + rest;
    if c == "" {
      assert text[1..] == rest;
    } else {
      ReadToQuoteFinds(c[1..], rest);
      assert text[1..] == c[1..] + "\"" + rest && text[..1] + c[1..] == c;
    }
  }

  lemma ReadQuotedFinds(c: Cid, rest: Bytes)
    requires IsCid(c)
    ensures ReadQuoted("\"" + c + "\"" + rest) == Some((c, rest))
  {
    var text := "\"" + c + "\"" + rest;
    assert text[1..] == c + "\"" + rest;
    assert forall d | d in c :: IsHexDigit(d);
    ReadToQuoteFinds(c, rest);
  }

  lemma ReadLastItem(c: Cid, rest: Bytes)
    requires IsCid(c)
    ensures ReadItems("\"" + c + "\"" + ("]" + rest)) == Some(([c], rest))
  {
    ReadQuotedFinds(c, "]" + rest);
    assert ("]" + rest)[1..] == rest;
  }

  lemma ReadNextItem(c: Cid, after: Bytes)
    requires IsCid(c) && ReadItems(after).Some?
    ensures ReadItems("\"" + c + "\"" + ("," + after))
         == Some(([c] + ReadItems(after).value.0, ReadItems(after).value.1))
  {
    ReadQuotedFinds(c, "," + after);
    assert ("," + after)[1..] == after;
  }

  lemma {:induction false} ReadItemsInverts(cids: seq<Cid>, rest: Bytes)
    requires cids != [] && AreCids(cids)
    ensures ReadItems(EncodeItems(cids) + "]" + rest) == Some((cids, rest))
  {
    FirstItem(cids, "]" + rest);
    assert EncodeItems(cids) + "]" + rest == EncodeItems(cids) + ("]" + rest);
    if |cids| == 1 {
      ReadLastItem(cids[0], rest);
      assert [cids[0]] == cids;
    } else {
      var after := EncodeItems(cids[1..]) + ("]" + rest);
      assert after == EncodeItems(cids[1..]) + "]" + rest;
      ReadItemsInverts(cids[1..], rest);
      ReadNextItem(cids[0], after);
      assert [cids[0]] + cids[1..] == cids;
    }
  }

  lemma FirstItem(cids: seq<Cid>, end: Bytes)
    requires cids != []
    ensures EncodeItems(cids) + end
         == "\"" + cids[0] + "\"" + if |cids| == 1 then end else "," + (EncodeItems(cids[1..]) + end)
  {
    var c := cids[0];
    if |cids| > 1 {
      var more := EncodeItems(cids[1..]);
      assert "\"" + c + "\"," + more + end == "\"" + c + "\"" + ("," + (more + end));
    }
  }

  /** Decoding the canonical JSON returns the same chunk list, the empty one included. */
  lemma FileNodeRoundTrip(cids: seq<Cid>)
    requires AreCids(cids)
    ensures ReadFileNode(EncodeFileNode(cids)) == Some(cids)
  {
    var text := EncodeFileNode(cids);
    if cids == [] {
      assert text[|HEAD|..] == "null" + TAIL;
    } else {
      var body := "[" + EncodeItems(cids) + "]" + TAIL;
      assert text == HEAD + body && text[|HEAD|..] == body && body[0] == '[';
      assert body[1..] == EncodeItems(cids) + "]" + TAIL;
      ReadItemsInverts(cids, TAIL);
    }
  }

  /** The assumptions on a node's libraries can be met: the canonical reader meets them. */
  lemma CanonicalReaderIsValid(hash: Bytes -> Cid)
    requires forall b: Bytes :: IsCid(hash(b))
    ensures Env(hash, ReadFileNode).Valid()
  {
    forall cids: seq<Cid> | AreCids(cids) ensures ReadFileNode(EncodeFileNode(cids)) == Some(cids) {
      FileNodeRoundTrip(cids);
    }
  }
}

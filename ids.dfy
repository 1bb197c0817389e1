/**
 * Record identifiers (server/internal/ulid/ulid.go). An identifier is a plain
 * string ending in a 27-character KSUID, optionally preceded by a prefix.
 * The KSUID library itself (base62 text, random payload) is a collaborator:
 * it is given as a codec whose one law is that printing then parsing a KSUID
 * gives it back.
 */
module Ids {
  import opened Base

  /** ulid.ID; its String method is the identity on this text. */
  type ID = string

  /** Length of a KSUID in bytes and in its string form. */
  const KsuidBytesLen: nat := 20
  const KsuidStringLen: nat := 27

  /** A KSUID is 20 bytes (a timestamp and a random payload). */
  type Ksuid = b: seq<bv8> | |b| == KsuidBytesLen witness seq(KsuidBytesLen, _ => 0)

  /** ksuid.Parse and KSUID.String. */
  datatype KsuidCodec = KsuidCodec(parse: string -> Option<Ksuid>, format: Ksuid -> string)

  /** The law the KSUID library guarantees: canonical text is 27 characters and parses back. */
  ghost predicate Lawful(c: KsuidCodec) {
    forall k :: |c.format(k)| == KsuidStringLen && c.parse(c.format(k)) == Some(k)
  }

  datatype IdError =
    | SliceOutOfRange  // v[len(v)-27:] with len(v) < 27: a run-time panic in the original
    | InvalidKsuid     // ksuid.Parse rejected the 27-character tail

  /** New(): the text of a freshly generated KSUID k. */
  function New(c: KsuidCodec, k: Ksuid): (id: ID)
    requires Lawful(c)
    ensures |id| == KsuidStringLen
    ensures id == c.format(k) && c.parse(id) == Some(k)
  {
    c.format(k)
  }

  /** The prefix NewWithPrefix actually uses: a '-' is added unless the prefix already starts with one. */
  function NormalPrefix(prefix: string): (p: string)
    ensures |prefix| > 0 && prefix[0] == '-' ==> p == prefix
    ensures !(|prefix| > 0 && prefix[0] == '-') ==> p == prefix + "-"
  {
    if |prefix| > 0 && prefix[0] == '-' then prefix else prefix + "-"
  }

  /** NewWithPrefix(prefix): the normalised prefix followed by a fresh KSUID. */
  function NewWithPrefix(c: KsuidCodec, prefix: string, k: Ksuid): (id: ID)
    requires Lawful(c)
    ensures |id| == |NormalPrefix(prefix)| + KsuidStringLen
    ensures id[..|id| - KsuidStringLen] == NormalPrefix(prefix)
    ensures id[|id| - KsuidStringLen..] == c.format(k) && c.parse(id[|id| - KsuidStringLen..]) == Some(k)
  {
    var id := NormalPrefix(prefix) + c.format(k);
    assert id[|id| - KsuidStringLen..] == c.format(k);
    id
  }

  /**
   * ParseID(v): the last 27 characters are the KSUID, everything before is the
   * prefix; on success the prefix is reattached to the KSUID's canonical text.
   */
  function ParseID(c: KsuidCodec, v: string): (r: Result<ID, IdError>)
    ensures |v| < KsuidStringLen <==> r == Err(SliceOutOfRange)
    ensures |v| >= KsuidStringLen ==>
      (r == Err(InvalidKsuid) <==> c.parse(v[|v| - KsuidStringLen..]).None?)
    ensures r.Ok? ==>
      && |v| >= KsuidStringLen
      && c.parse(v[|v| - KsuidStringLen..]).Some?
      && r.value == v[..|v| - KsuidStringLen] + c.format(c.parse(v[|v| - KsuidStringLen..]).value)
  {
    if |v| < KsuidStringLen then Err(SliceOutOfRange)
    else
      match c.parse(v[|v| - KsuidStringLen..])
      case None => Err(InvalidKsuid)
      case Some(k) => Ok(v[..|v| - KsuidStringLen] + c.format(k))
  }

  /** A generated identifier parses back to itself. */
  lemma ParseNew(c: KsuidCodec, k: Ksuid)
    requires Lawful(c)
    ensures ParseID(c, New(c, k)) == Ok(New(c, k))
  {
    var id := New(c, k);
    assert id[|id| - KsuidStringLen..] == id;
    assert id[..|id| - KsuidStringLen] == "";
    assert c.parse(id) == Some(k);
    assert "" + c.format(k) == id;
  }

  /** A generated prefixed identifier parses back to itself. */
  lemma ParseNewWithPrefix(c: KsuidCodec, prefix: string, k: Ksuid)
    requires Lawful(c)
    ensures ParseID(c, NewWithPrefix(c, prefix, k)) == Ok(NewWithPrefix(c, prefix, k))
  {
    var id := NewWithPrefix(c, prefix, k);
    assert id == id[..|id| - KsuidStringLen] + c.format(k);
  }

  // ----- the prefix delimiter -----

  /**
   * As written, the check looks at the wrong end of the prefix: a prefix
   * starting with '-' gets no delimiter before the KSUID, and normalising an
   * already normalised prefix adds a second '-'.
   */
  lemma NormalPrefixMisplacesDelimiter(c: KsuidCodec, k: Ksuid)
    requires Lawful(c)
    ensures var id := NewWithPrefix(c, "-a", k); id[|id| - KsuidStringLen - 1] == 'a'
    ensures NormalPrefix(NormalPrefix("a")) == "a--" != NormalPrefix("a")
  {
    var id := NewWithPrefix(c, "-a", k);
    assert id[..|id| - KsuidStringLen] == "-a";
    assert id[|id| - KsuidStringLen - 1] == id[..|id| - KsuidStringLen][1];
  }

  /** The evidently intended normalisation: a '-' is added unless the prefix already ends with one. */
  function SeparatedPrefix(prefix: string): (p: string)
    ensures |p| > 0 && p[|p| - 1] == '-'
  {
    if |prefix| > 0 && prefix[|prefix| - 1] == '-' then prefix else prefix + "-"
  }

  /** The intended normalisation keeps a delimited prefix, delimits any other, and is idempotent. */
  lemma SeparatedPrefixIsNormal(prefix: string)
    ensures |prefix| > 0 && prefix[|prefix| - 1] == '-' <==> SeparatedPrefix(prefix) == prefix
    ensures SeparatedPrefix(prefix) != prefix ==> SeparatedPrefix(prefix) == prefix + "-"
    ensures SeparatedPrefix(SeparatedPrefix(prefix)) == SeparatedPrefix(prefix)
  {
  }

  /** NewWithPrefix with the intended delimiter rule: the character before the KSUID is always '-'. */
  function NewWithSeparatedPrefix(c: KsuidCodec, prefix: string, k: Ksuid): (id: ID)
    requires Lawful(c)
    ensures |id| == |SeparatedPrefix(prefix)| + KsuidStringLen
    ensures id[..|id| - KsuidStringLen] == SeparatedPrefix(prefix)
    ensures id[|id| - KsuidStringLen - 1] == '-'
    ensures id[|id| - KsuidStringLen..] == c.format(k) && c.parse(id[|id| - KsuidStringLen..]) == Some(k)
  {
    var p := SeparatedPrefix(prefix);
    var id := p + c.format(k);
    assert id[..|id| - KsuidStringLen] == p;
    assert id[|id| - KsuidStringLen..] == c.format(k);
    assert id[|id| - KsuidStringLen - 1] == p[|p| - 1];
    id
  }

  /** The corrected generator still round-trips through ParseID. */
  lemma ParseNewWithSeparatedPrefix(c: KsuidCodec, prefix: string, k: Ksuid)
    requires Lawful(c)
    ensures ParseID(c, NewWithSeparatedPrefix(c, prefix, k)) == Ok(NewWithSeparatedPrefix(c, prefix, k))
  {
    var id := NewWithSeparatedPrefix(c, prefix, k);
    assert id == id[..|id| - KsuidStringLen] + c.format(k);
  }
}

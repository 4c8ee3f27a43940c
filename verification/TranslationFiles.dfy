/**
 The translation build end to end: a PO file's lines are read and the catalogue compiled, and
 what a reader finds in the compiled bytes is what the lines say. A string literal can hold any
 code points, also those that have no UTF-8 form.
 */
module TranslationFiles {
  import opened Wrappers
  import opened Bytes
  import opened Utf8
  import Po = PoCatalog
  import Mo = MoCatalog
  import Raw = RawCatalogs

  // A reader of these bytes finds, for every text, what the file's entries say last about it.
  ghost predicate Translates(x: Po.Syntax, lines: seq<Po.Line>, b: ByteString) {
    && Po.Entries(x, lines, false).Some?
    && forall key: Text :: Encodable(key) ==> Finds(b, key, Po.LastValue(Po.Entries(x, lines, false).value, key))
  }

  ghost predicate Finds(b: ByteString, key: Text, value: Option<Text>)
    requires Encodable(key)
  {
    && (value.Some? ==> Encodable(value.value))
    && Mo.Lookup(b, Encode(key)) == if value.None? then None else Some(Encode(value.value))
  }

  /** Compiling what was read gives a file in which every text has the last non-empty value of its
      entries that are not fuzzy, and a text without one is not found. */
  lemma CompiledTranslates(
    x: Po.Syntax, lines: seq<Po.Line>, messages: map<Text, Text>, b: ByteString, keys: seq<Text>)
    requires Po.Finish(x, Po.START, lines) == Some(messages) && Mo.IsCatalog(b, keys, messages)
    ensures Translates(x, lines, b)
  {
    Po.MachineMeansEntries(x, Po.START, lines);
    var es := Po.Entries(x, lines, false).value;
    forall key: Text | Encodable(key) ensures Finds(b, key, Po.LastValue(es, key)) {
      Po.LastNonEmptyWins(x, map[], es, key);
      Mo.CatalogRoundTrip(b, keys, messages, key);
    }
  }

  datatype BuildError = NotACatalog | NotEncodable | TooLarge

  // What becomes of a file, from what was read; None: it compiles.
  ghost function Failure(read: Option<map<Text, Text>>): Option<BuildError> {
    if read.None? then Some(NotACatalog)
    else if !Mo.AllEncodable(read.value) then Some(NotEncodable)
    else if !Mo.OffsetsFit(read.value) then Some(TooLarge)
    else None
  }

  /** compile_catalog(read_catalog(path)) on the lines of one file. It fails exactly when the lines
      are no catalogue, or a text that is kept has no UTF-8 form, or a length or offset has no 32-bit
      form; otherwise the bytes translate exactly as the lines say. */
  method CompileFile(x: Po.Syntax, raw: seq<string>) returns (result: Result<ByteString, BuildError>)
    ensures match Failure(Po.Finish(x, Po.START, Po.ClassifyAll(raw)))
            case Some(e) => result == Err(e)
            case None => result.Ok? && Translates(x, Po.ClassifyAll(raw), result.value)
  {
    var messages := Po.ReadCatalog(x, raw);
    if messages.None? { return Err(NotACatalog); }
    var compiled, keys := Mo.CompileCatalog(messages.value);
    if compiled.Err? && compiled.error.NotEncodable? { return Err(NotEncodable); }
    Mo.FitOfKeys(keys, messages.value);
    if compiled.Err? { return Err(TooLarge); }
    CompiledTranslates(x, Po.ClassifyAll(raw), messages.value, compiled.value, keys);
    return Ok(compiled.value);
  }

  /** From what was written to what is looked up: with any comments, flags and continuation lines, a
      text has in the compiled bytes the last non-empty value among the entries that are not fuzzy. */
  lemma WrittenTranslates(x: Po.Syntax, escape: Text -> string, es: seq<Raw.RawEntry>, b: ByteString)
    requires Po.Prints(x, escape) && forall i :: 0 <= i < |es| ==> Raw.Written(es[i])
    requires Translates(x, Po.ClassifyAll(Raw.PrintFile(escape, es)), b)
    ensures forall key: Text :: Encodable(key) ==> Finds(b, key, Po.LastValue(Raw.EntriesOf(es), key))
  {
    Raw.WrittenEntries(x, escape, es);
  }

  /** A translation of one lone surrogate, which a literal can spell, is read and cannot be compiled. */
  lemma SurrogateFails(x: Po.Syntax, escape: Text -> string)
    requires Po.Prints(x, escape) && x.holders([0x61]) == x.holders([0xD800])
    ensures var raw := Po.Print(escape, [([0x61], [0xD800])]);
            Failure(Po.Finish(x, Po.START, Po.ClassifyAll(raw))) == Some(NotEncodable)
  {
    var pairs := [([0x61], [0xD800])];
    Po.PrintThenRead(x, escape, pairs);
    assert pairs[..0] == [];
    assert Po.AsMap(pairs)[[0x61]] == [0xD800];
    assert !Scalar([0xD800][0]);
  }
}

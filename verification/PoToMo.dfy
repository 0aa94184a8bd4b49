/** From the printed entries of a PO file to the lookups in the compiled MO file. */
module PoToMo {
  import opened Wrappers
  import Po = PoCatalog
  import Mo = MoFile
  import opened PoCompiler

  datatype FileError = Syntax(syntax: Po.SyntaxError) | Size(size: PackError)

  /** `compile_po` from the text of the file on. */
  method CompileFile(text: string) returns (r: Result<Mo.Bytes, FileError>, keys: seq<string>)
    ensures r.Err? && r.error.Syntax? <==> Po.Parse(Po.SplitLines(text)).Err?
    ensures Po.Parse(Po.SplitLines(text)).Ok? ==>
      var messages := Po.Parse(Po.SplitLines(text)).value;
      && KeysOf(keys, messages)
      && (r.Ok? <==> Mo.Packable(Ids(keys), Strs(keys, messages)))
      && (r.Ok? ==> r.value == Mo.MoBytes(Ids(keys), Strs(keys, messages)))
  {
    var parsed := Po.Catalog(text);
    if parsed.Err? {
      return Err(Syntax(parsed.error)), [];
    }
    var packed, sorted := CompilePo(parsed.value);
    return if packed.Ok? then Ok(packed.value) else Err(Size(packed.error)), sorted;
  }

  /** A key that some printed entry translates is found in the compiled file with its last nonempty
    * translation; every other key is reported absent. */
  lemma TranslationFound(lines: seq<string>, first: nat, entries: seq<Po.Entry>, gaps: seq<nat>, keys: seq<string>,
                         key: string)
    requires |entries| == |gaps| && Po.Printable(entries)
    requires Po.Essential(lines) == Po.Blanks(first) + Po.PrintedAll(entries, gaps)
    requires Po.Parse(lines).Ok? ==>
      KeysOf(keys, Po.Parse(lines).value) && Mo.Packable(Ids(keys), Strs(keys, Po.Parse(lines).value))
    ensures Po.Parse(lines).Ok?
    ensures var found := Mo.MoLookup(Mo.MoBytes(Ids(keys), Strs(keys, Po.Parse(lines).value)), key);
      && (found.Some? <==> exists i :: 0 <= i < |entries| && Po.Translates(entries[i], key))
      && forall i :: Po.LastTranslation(entries, key, i) ==> found == Some(Po.Joined(entries[i].str))
  {
    Po.ParsePrinted(lines, first, entries, gaps);
    Po.CatalogMeaning(entries, map[], key);
    LookupCorrect(keys, Po.Parse(lines).value, key);
    forall i | Po.LastTranslation(entries, key, i)
      ensures key in Po.Parse(lines).value
    {
      assert Po.Translates(entries[i], key);
    }
  }
}

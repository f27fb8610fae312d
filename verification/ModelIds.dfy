/** What every registry's parser and catalog speak about. */
module ModelIds {
  import opened Options

  datatype Model = Model(id: string, name: string)

  /** What a model string was read as. */
  datatype Parsed = Parsed(provider: Option<string>, model: Option<string>)

  datatype CatalogEntry = CatalogEntry(id: string, name: string, provider: string)
}

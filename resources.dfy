/** The two REST resources the page reads, as plain values. */
module Resources {
  import opened Wrappers

  /** A storefront theme; the live one has role "main". */
  datatype Theme = Theme(id: nat, role: string)

  /** A theme file as the asset listing returns it. `key` is the path-like
      name ("templates/index.json"); JavaScript may leave it undefined. */
  datatype Asset = Asset(key: Option<string>, themeId: nat, updatedAt: string, checksum: string)
}

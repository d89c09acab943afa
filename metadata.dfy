/** The rows the copy script reads from the source catalog. The catalog
    queries themselves are not modelled: their results are the inputs. */
module Metadata {

  import opened Wrappers

  /** One row of the column query (sys.columns joined with sys.types and,
      by an outer join, sys.computed_columns), in column_id order. */
  datatype Column = Column(
    columnId: int,
    name: string,
    dataType: Option<string>,
    maxLength: int,               // bytes; -1 is the catalog's "MAX" sentinel
    precision: int,
    scale: Option<int>,
    isNullable: bool,
    isIdentity: bool,
    isComputed: bool,
    computedDefinition: Option<string>,  // NULL for non-computed columns
    computedPersisted: Option<bool>      // NULL for non-computed columns
  )

  /** The row of the primary-key query: the key's backing index and its type
      (1 is a clustered index). */
  datatype PkInfo = PkInfo(indexId: int, indexType: int)

  /** One row of the key-column query, which is ordered by key_ordinal. */
  datatype KeyRow = KeyRow(colName: string, isDescendingKey: bool, keyOrdinal: int)

  /** A value in a copied row; the copy never looks inside it. */
  datatype Value = Null | Number(int) | Chars(string) | Bytes(seq<int>)

  /** One fetched row: its values in the order of the insertable columns. */
  datatype Row = Row(values: seq<Value>)

  /** The `[schema].[table]` coordinate, the same on source and destination. */
  datatype TableRef = TableRef(schema: string, table: string)
}

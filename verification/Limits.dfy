/** The sizes that the source gives its arrays and buffers. */
module Limits {
  import opened HashTable
  import opened RightRelation
  import opened TdbHeader
  import opened TdbInsert
  import opened TdbScan
  import opened Tuples
  import opened WrittenText

  /** Lines, tuples and columns; names and expressions; records and chunks; hashmap nodes and buffers. */
  lemma AsDeclared()
    ensures LINEBUFF == 200 && TUPLESIZE == 500 && MAXCOLS == 100 && DELIMITER == ';'
    ensures MAXEXPRSIZE == 100 && CHARMAXSIZE == 100 && ARRAYMAXSIZE == 25
    ensures TDBRECORDMAXSIZE == 1024 && TDBMAXSTRINGSIZE == 50 && TDBSCANBUFFRECORDS == 10000
    ensures KEYSIZE == 100 && NODEVALUES == 10000 && JOINBUFFSIZE == 100000
  {
  }
}

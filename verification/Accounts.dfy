/** Who talks to whom: ids, accounts with their secret keys, contacts with their public ones. */
module Accounts {
  import opened Bytes
  import opened Box

  const ID_BYTES := 8

  type Id = s: seq<Byte> | |s| == ID_BYTES witness Zeros(ID_BYTES)

  datatype Account = Account(id: Id, sk: Key)
  datatype Contact = Contact(id: Id, pk: Key)
}

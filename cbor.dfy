/**
  The values of the token library the validators read: CBOR values as decoded claims, and the
  names of the claims the validators look up. The numeric claim keys and the CBOR wire format
  belong to the token library and are not part of this model.
*/
module Cbor {
  import opened Net

  datatype CborValue =
    | Integer(number: int)
    | Bytes(bytes: seq<byte>)
    | Text(text: string)
    | Array(items: seq<CborValue>)
    | Map(entries: map<int, CborValue>)
    | Null

  /** The custom claims the sync validators read (`cat_keys::CATV`, `CATH`, `CATNIP`, `CATGEOISO3166`). */
  datatype ClaimKey = Catv | Cath | Catnip | Catgeoiso3166
}

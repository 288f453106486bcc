/** A fact: three identifiers given out by the dictionary. */
module Triples {
  datatype Triple = Triple(subj: nat, pred: nat, obj: nat)
}

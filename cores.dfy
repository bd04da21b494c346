/**
 * The four colours of the game, in declaration order.  Audio clips, AWT
 * colours and the random generator of the Java enum are not modelled: a
 * colour is a plain value, and a "random" colour is supplied by the caller.
 */
module Cores {

  datatype Cor = Amarelo | Vermelho | Verde | Azul

  const NumCores: nat := 4

  /** `Cor.values()`: every colour, in declaration order. */
  const Valores: seq<Cor> := [Amarelo, Vermelho, Verde, Azul]

  /** `Cor.ordinal()`: the position of the colour in `Valores`. */
  function Ordinal(c: Cor): (r: nat)
    ensures r < NumCores == |Valores|
    ensures Valores[r] == c
  {
    match c
    case Amarelo => 0
    case Vermelho => 1
    case Verde => 2
    case Azul => 3
  }
}

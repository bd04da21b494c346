/**
 * The secret pattern of the game (Sequencia.java): an append-only list of
 * colours and a replay cursor that drives the playback one step per tick.
 *
 * `SeqValor` and the functions over it are the specification; the class
 * `Sequencia` keeps the list and the cursor in mutable fields and its
 * methods are proved to follow those functions.
 */
module Sequencias {
  import opened Wrappers
  import opened Cores
  import opened Botoes

  /** The pattern and the cursor; `cursor == -1` means "not replaying". */
  datatype SeqValor = SeqValor(entradas: seq<Cor>, cursor: int) {

    /** The state every operation keeps: a non-empty pattern, a cursor in `[-1, size - 1]`. */
    predicate Valida() {
      |entradas| >= 1 && -1 <= cursor < |entradas|
    }

    /** `acabou()` (Sequencia.java:55-57). */
    predicate Acabou() {
      cursor == -1
    }

    /** `estaCorreta(indice, cor)` (Sequencia.java:19-21); comparing with a missing colour yields false. */
    function EstaCorreta(indice: int, cor: Option<Cor>): (b: bool)
      requires 0 <= indice < |entradas|
      ensures cor.None? ==> !b
      ensures cor.Some? ==> (b <==> cor.value == entradas[indice])
    {
      cor == Some(entradas[indice])
    }
  }

  /** `new Sequencia()` (Sequencia.java:7-13), the first random colour being `primeira`. */
  function Inicial(primeira: Cor): (r: SeqValor)
    ensures r.Valida() && r.Acabou()
    ensures r.entradas == [primeira]
  {
    SeqValor([primeira], -1)
  }

  /** `adicionar()` (Sequencia.java:15-17), the random colour being `c`. */
  function Adiciona(s: SeqValor, c: Cor): (r: SeqValor)
    ensures |r.entradas| == |s.entradas| + 1
    ensures r.entradas[..|s.entradas|] == s.entradas && r.entradas[|s.entradas|] == c
    ensures r.cursor == s.cursor
    ensures s.Valida() ==> r.Valida()
  {
    s.(entradas := s.entradas + [c])
  }

  /**
   * The cursor move of a playback step that is not waiting: arm a finished
   * pattern at its first entry, otherwise step forward and wrap to -1 after
   * the last entry (Sequencia.java:29-32, 48-52).
   */
  function Proximo(s: SeqValor): (r: SeqValor)
    requires s.Valida()
    ensures r.Valida() && r.entradas == s.entradas
    ensures s.Acabou() ==> r.cursor == 0
    ensures !s.Acabou() ==> (r.Acabou() <==> s.cursor == |s.entradas| - 1)
    ensures !s.Acabou() && !r.Acabou() ==> r.cursor == s.cursor + 1
  {
    if s.cursor == -1 then s.(cursor := 0)
    else
      var c := s.cursor + 1;
      s.(cursor := if c == |s.entradas| then -1 else c)
  }

  /** The cue a playback step is waiting on: the previous entry's button is still pressed (Sequencia.java:40-43). */
  predicate Aguardando(s: SeqValor, bs: seq<BotaoValor>)
    requires s.Valida() && NumCores <= |bs|
  {
    s.cursor > 0 && bs[Ordinal(s.entradas[s.cursor - 1])].estado.Pressionado?
  }

  /**
   * `processar(botoes)` (Sequencia.java:27-53) on the values of the buttons,
   * which are indexed by colour ordinal: the new pattern state and buttons.
   */
  function Toca(s: SeqValor, bs: seq<BotaoValor>): (r: (SeqValor, seq<BotaoValor>))
    requires s.Valida() && NumCores <= |bs|
    ensures r.0.Valida() && r.0.entradas == s.entradas && |r.1| == |bs|
    // At most the button of the current entry changes, and only by being pressed.
    ensures forall j :: 0 <= j < |bs| && r.1[j] != bs[j] ==>
              s.cursor >= 0 && j == Ordinal(s.entradas[s.cursor]) && r.1[j] == Pressiona(bs[j])
  {
    if s.cursor == -1 then (s.(cursor := 0), bs)
    else
      var indBotao := Ordinal(s.entradas[s.cursor]);
      var indUltBotao := if s.cursor == 0 then -1 else Ordinal(s.entradas[s.cursor - 1]);
      if indUltBotao >= 0 && bs[indUltBotao].estado.Pressionado? then (s, bs)
      else (Proximo(s), bs[indBotao := Pressiona(bs[indBotao])])
  }

  /**
   * What one playback step does: a finished pattern is only armed at its
   * first entry and no button is pressed; a step whose previous cue is
   * still held changes nothing; any other step presses exactly the button of
   * the current entry and moves the cursor on, wrapping after the last entry.
   */
  lemma TocaEfeito(s: SeqValor, bs: seq<BotaoValor>)
    requires s.Valida() && NumCores <= |bs|
    ensures var r := Toca(s, bs);
      && (s.Acabou() ==> r.0.cursor == 0 && r.1 == bs)
      && (!s.Acabou() && Aguardando(s, bs) ==> r == (s, bs))
      && (!s.Acabou() && !Aguardando(s, bs) ==>
            var k := Ordinal(s.entradas[s.cursor]);
            r.0 == Proximo(s) && r.1 == bs[k := Pressiona(bs[k])])
  {
  }

  /**
   * What `estaCorreta` accepts: at each index exactly one colour, the
   * pattern's own; a whole answer passes every index if and only if it is
   * the pattern; and appending a colour never changes the verdict at an
   * index the pattern already had.
   */
  lemma RespostaCerta(s: SeqValor, rs: seq<Cor>, i: int, c: Cor, d: Cor, nova: Cor)
    requires |rs| == |s.entradas| && 0 <= i < |s.entradas|
    ensures s.EstaCorreta(i, Some(c)) && s.EstaCorreta(i, Some(d)) ==> c == d
    ensures (forall j :: 0 <= j < |rs| ==> s.EstaCorreta(j, Some(rs[j]))) <==> rs == s.entradas
    ensures Adiciona(s, nova).EstaCorreta(i, Some(c)) == s.EstaCorreta(i, Some(c))
  {
    if forall j :: 0 <= j < |rs| ==> s.EstaCorreta(j, Some(rs[j])) {
      assert forall j :: 0 <= j < |rs| ==> rs[j] == s.entradas[j];
    }
  }

  /** The colour a step that does not wait presses: none when it only arms the cursor. */
  function Deixa(s: SeqValor): seq<Cor>
    requires s.Valida()
  {
    if s.cursor == -1 then [] else [s.entradas[s.cursor]]
  }

  /** `k` playback steps none of which has to wait: the final state and the colours pressed, in order. */
  function Reproduz(s: SeqValor, k: nat): (r: (SeqValor, seq<Cor>))
    requires s.Valida()
    decreases k
  {
    if k == 0 then (s, [])
    else
      var resto := Reproduz(Proximo(s), k - 1);
      (resto.0, Deixa(s) + resto.1)
  }

  /** From a cursor `c >= 0`, `size - c` steps press the rest of the pattern in order and finish. */
  lemma {:induction false} ReproduzRestante(s: SeqValor)
    requires s.Valida() && s.cursor >= 0
    ensures Reproduz(s, |s.entradas| - s.cursor) == (s.(cursor := -1), s.entradas[s.cursor..])
    decreases |s.entradas| - s.cursor
  {
    var p := Proximo(s);
    if s.cursor == |s.entradas| - 1 {
      assert p == s.(cursor := -1);
      assert Reproduz(s, 1) == (Reproduz(p, 0).0, Deixa(s) + Reproduz(p, 0).1);
      assert Reproduz(p, 0) == (p, []);
      assert Deixa(s) + [] == [s.entradas[s.cursor]] == s.entradas[s.cursor..];
    } else {
      ReproduzRestante(p);
      assert s.entradas[s.cursor..] == [s.entradas[s.cursor]] + s.entradas[s.cursor + 1..];
    }
  }

  /** While fewer than `size - c` steps have run from cursor `c`, the cursor just moves forward. */
  lemma {:induction false} CursorAvanca(s: SeqValor, k: nat)
    requires s.Valida() && k < |s.entradas| - s.cursor
    ensures Reproduz(s, k).0.cursor == s.cursor + k && Reproduz(s, k).0.entradas == s.entradas
    decreases k
  {
    if k > 0 {
      CursorAvanca(Proximo(s), k - 1);
    }
  }

  /**
   * Playback pacing: from the finished state, a pattern of `n` entries is
   * played by exactly `n + 1` steps that do not wait.  The first step only
   * arms the cursor, the next `n` press the entries in order, and the pattern
   * reads as finished after step `n + 1` and at no step before.
   */
  lemma ReproducaoCompleta(s: SeqValor)
    requires s.Valida() && s.Acabou()
    ensures Reproduz(s, |s.entradas| + 1) == (s, s.entradas)
    ensures forall k :: 1 <= k <= |s.entradas| ==> !Reproduz(s, k).0.Acabou()
  {
    var p := Proximo(s);
    ReproduzRestante(p);
    assert p.(cursor := -1) == s;
    assert Deixa(s) + p.entradas[p.cursor..] == s.entradas;
    assert Reproduz(s, |s.entradas| + 1) == (Reproduz(p, |s.entradas|).0, Deixa(s) + Reproduz(p, |s.entradas|).1);
    forall k | 1 <= k <= |s.entradas|
      ensures !Reproduz(s, k).0.Acabou()
    {
      CursorAvanca(s, k);
    }
  }

  class Sequencia {
    var sequencia: seq<Cor>
    var indiceSequencia: int

    function Valor(): SeqValor
      reads this
    {
      SeqValor(sequencia, indiceSequencia)
    }

    constructor (primeira: Cor)
      ensures Valor() == Inicial(primeira)
    {
      sequencia := [];
      indiceSequencia := -1;
      new;
      Adicionar(primeira);
    }

    method Adicionar(c: Cor)
      modifies this
      ensures Valor() == Adiciona(old(Valor()), c)
    {
      sequencia := sequencia + [c];
    }

    /** `estaCorreta(indice, cor)` (Sequencia.java:19-21) on the fields. */
    function EstaCorreta(indice: int, cor: Option<Cor>): (b: bool)
      reads this
      requires 0 <= indice < |sequencia|
      ensures b == Valor().EstaCorreta(indice, cor)
    {
      cor == Some(sequencia[indice])
    }

    /** `acabou()` (Sequencia.java:55-57) on the fields. */
    function Acabou(): (b: bool)
      reads this
      ensures b == Valor().Acabou()
    {
      indiceSequencia == -1
    }

    /** `tamanho()` (Sequencia.java:59-61) on the fields. */
    function Tamanho(): (r: nat)
      reads this
      ensures r == |Valor().entradas|
    {
      |sequencia|
    }

    method Processar(botoes: seq<Botao>)
      requires Valor().Valida() && NumCores <= |botoes| && Distintos(botoes)
      modifies this, botoes
      ensures Valor() == Toca(old(Valor()), old(Vistas(botoes))).0
      ensures Vistas(botoes) == Toca(old(Valor()), old(Vistas(botoes))).1
    {
      ghost var s0, v0 := Valor(), Vistas(botoes);
      TocaEfeito(s0, v0);
      if indiceSequencia == -1 {
        indiceSequencia := indiceSequencia + 1;
        return;
      }
      var indBotao := Ordinal(sequencia[indiceSequencia]);
      var indUltBotao := if indiceSequencia == 0 then -1 else Ordinal(sequencia[indiceSequencia - 1]);
      if indUltBotao >= 0 && botoes[indUltBotao].EstaPressionado() {
        return;
      }
      PressionarEm(botoes, indBotao);
      ghost var v1 := Vistas(botoes);
      assert v1 == v0[indBotao := Pressiona(v0[indBotao])];
      var proximo := indiceSequencia + 1;
      if proximo == |sequencia| {
        proximo := -1;
      }
      indiceSequencia := proximo;
      assert Vistas(botoes) == v1;
    }
  }
}

/**
 * The game (Genius.java): a two-phase state machine.  In `Tocando` the
 * pattern is played back on the buttons, one step per tick; in `Ouvindo`
 * the player's clicks press buttons and each released press is checked
 * against the pattern.  A mistake ends the game; a complete correct answer
 * grows the pattern by one colour and starts the next playback.
 *
 * `JogoValor` and the functions over it are the specification, `Inv` is the
 * invariant every reachable state keeps, and the class `Genius` holds the
 * same state in fields and is proved to follow the functions.
 */
module Jogo {
  import opened Wrappers
  import opened Cores
  import opened Botoes
  import opened Sequencias

  datatype Fase = Tocando | Ouvindo

  /** Every field of the game, with the buttons and the pattern as values. */
  datatype JogoValor = JogoValor(
    estado: Fase,
    terminou: bool,
    ultCorPressionada: Option<Cor>,
    botaoPressionado: bool,
    indPressionamento: int,
    botoes: seq<BotaoValor>,
    sequencia: SeqValor)

  // The fixed button layout of the constructor (Genius.java:41-47): button
  // `i` has colour `Valores[i]` and the circle of diameter 100 at (X[i], Y[i]).
  const X: seq<int> := [50, 300, 50, 300]
  const Y: seq<int> := [50, 50, 300, 300]
  const Raio: int := 100

  function Layout(i: nat): Forma
    requires i < NumCores
  {
    Forma(X[i], Y[i], Raio)
  }

  /** The four circles of the layout do not overlap: no point lies in two of them. */
  lemma LayoutDisjunto(i: nat, j: nat, p: Ponto)
    requires i < NumCores && j < NumCores
    requires Layout(i).Contem(p) && Layout(j).Contem(p)
    ensures i == j
  {
    ContemNoQuadrado(Layout(i), p);
    ContemNoQuadrado(Layout(j), p);
  }

  /** `temBotaoPressionado()` (Genius.java:57-63), on button values. */
  function AlgumPressionado(bs: seq<BotaoValor>): (b: bool)
    ensures !b <==> forall i :: 0 <= i < |bs| ==> bs[i].estado.Solto?
  {
    exists i :: 0 <= i < |bs| && bs[i].estado.Pressionado?
  }

  /** How many of the buttons contain the point: none exactly when no button contains it. */
  function Atingidos(bs: seq<BotaoValor>, p: Ponto): (n: nat)
    ensures n <= |bs|
    ensures n == 0 <==> forall k :: 0 <= k < |bs| ==> !bs[k].forma.Contem(p)
  {
    if bs == [] then 0
    else
      assert forall k :: 1 <= k < |bs| ==> bs[k] == bs[1..][k - 1];
      (if bs[0].forma.Contem(p) then 1 else 0) + Atingidos(bs[1..], p)
  }

  /** A point that some button contains is contained by one of them; otherwise by none. */
  lemma {:induction false} AtingidosTestemunha(bs: seq<BotaoValor>, p: Ponto) returns (j: nat)
    ensures Atingidos(bs, p) > 0 ==> j < |bs| && bs[j].forma.Contem(p)
    ensures Atingidos(bs, p) == 0 ==> forall k :: 0 <= k < |bs| ==> !bs[k].forma.Contem(p)
  {
    j := 0;
    if bs != [] {
      var j' := AtingidosTestemunha(bs[1..], p);
      if !bs[0].forma.Contem(p) {
        j := j' + 1;
      }
      if Atingidos(bs, p) == 0 {
        forall k | 0 <= k < |bs|
          ensures !bs[k].forma.Contem(p)
        {
          if k > 0 {
            assert bs[k] == bs[1..][k - 1];
          }
        }
      }
    }
  }

  /** When no two buttons share a point, a click hits at most one button. */
  lemma {:induction false} AtingidosNoMaximoUm(bs: seq<BotaoValor>, p: Ponto)
    requires forall i, j :: 0 <= i < |bs| && 0 <= j < |bs| && bs[i].forma.Contem(p) && bs[j].forma.Contem(p) ==> i == j
    ensures Atingidos(bs, p) <= 1
  {
    if bs != [] {
      var resto := bs[1..];
      forall i, j | 0 <= i < |resto| && 0 <= j < |resto| && resto[i].forma.Contem(p) && resto[j].forma.Contem(p)
        ensures i == j
      {
        assert bs[i + 1] == resto[i] && bs[j + 1] == resto[j];
      }
      AtingidosNoMaximoUm(resto, p);
      var k := AtingidosTestemunha(resto, p);
    }
  }

  /**
   * The invariant of every reachable game state.  Besides the layout and the
   * pattern's own invariant it records why `estaCorreta` is only ever asked
   * about an index of the pattern: while listening, a press still held has an
   * index inside the pattern and a button really pressed, and a released
   * press that was not the last one has already been checked correct.
   * While listening the pattern's cursor rests finished, so every playback
   * starts from the finished state.
   */
  predicate Inv(g: JogoValor)
  {
    && |g.botoes| == NumCores
    && (forall i :: 0 <= i < NumCores ==> g.botoes[i].cor == Valores[i] && g.botoes[i].forma == Layout(i))
    && g.sequencia.Valida()
    && g.indPressionamento >= -1
    && (g.estado.Tocando? ==> !g.botaoPressionado)
    && (g.estado.Ouvindo? ==> g.sequencia.Acabou())
    && (g.estado.Ouvindo? && !g.terminou ==>
          && (g.botaoPressionado ==>
                g.indPressionamento < |g.sequencia.entradas| && AlgumPressionado(g.botoes))
          && (!g.botaoPressionado && g.indPressionamento >= 0 ==>
                && g.indPressionamento < |g.sequencia.entradas| - 1
                && g.sequencia.EstaCorreta(g.indPressionamento, g.ultCorPressionada)))
  }

  /** The buttons as the constructor lays them out, all released. */
  function BotoesIniciais(): (r: seq<BotaoValor>)
    ensures |r| == NumCores
    ensures forall i :: 0 <= i < NumCores ==> r[i] == BotaoValor(Valores[i], Layout(i), Solto, 0.0, 0)
  {
    [BotaoValor(Amarelo, Forma(50, 50, Raio), Solto, 0.0, 0),
     BotaoValor(Vermelho, Forma(300, 50, Raio), Solto, 0.0, 0),
     BotaoValor(Verde, Forma(50, 300, Raio), Solto, 0.0, 0),
     BotaoValor(Azul, Forma(300, 300, Raio), Solto, 0.0, 0)]
  }

  /** `new Genius()` (Genius.java:21-48), the pattern's first random colour being `primeira`. */
  function Novo(primeira: Cor): (r: JogoValor)
    ensures Inv(r)
    ensures r.estado == Tocando && !r.terminou && r.indPressionamento == -1
    ensures r.sequencia.entradas == [primeira] && r.sequencia.Acabou()
    ensures !AlgumPressionado(r.botoes)
  {
    JogoValor(Tocando, false, None, false, -1, BotoesIniciais(), Sequencias.Inicial(primeira))
  }

  /** `botaoSoltou(botao)` (Genius.java:171-177) for a button of colour `cor`. */
  function Soltou(g: JogoValor, cor: Cor): (r: JogoValor)
    ensures g.estado.Tocando? ==> r == g
    ensures g.estado.Ouvindo? ==> r == g.(botaoPressionado := false, ultCorPressionada := Some(cor))
  {
    if g.estado.Tocando? then g
    else g.(botaoPressionado := false, ultCorPressionada := Some(cor))
  }

  /** `trocarEstado()` (Genius.java:140-154), the colour appended being `sorteada`. */
  function Trocar(g: JogoValor, sorteada: Cor): (r: JogoValor)
    ensures g.estado.Tocando? ==> r == g.(estado := Ouvindo, indPressionamento := -1, ultCorPressionada := None)
    ensures g.estado.Ouvindo? ==> r == g.(estado := Tocando, sequencia := Adiciona(g.sequencia, sorteada))
  {
    if g.estado.Tocando? then g.(estado := Ouvindo, indPressionamento := -1, ultCorPressionada := None)
    else g.(estado := Tocando, sequencia := Adiciona(g.sequencia, sorteada))
  }

  /**
   * One iteration of the loop of Genius.java:99-100: button `i` is processed
   * and a release goes to `Soltou`.  Only button `i`, the held flag and the
   * last colour can change, the latter two only on a release while listening.
   */
  function ProcessaUm(g: JogoValor, segundos: real, i: nat): (r: JogoValor)
    requires i < |g.botoes|
    ensures r.estado == g.estado && r.terminou == g.terminou && r.sequencia == g.sequencia
    ensures r.indPressionamento == g.indPressionamento
    ensures r.botoes == g.botoes[i := Processa(g.botoes[i], segundos).0]
    ensures g.estado.Ouvindo? && Processa(g.botoes[i], segundos).1 ==>
              !r.botaoPressionado && r.ultCorPressionada == Some(g.botoes[i].cor)
    ensures !(g.estado.Ouvindo? && Processa(g.botoes[i], segundos).1) ==>
              r.botaoPressionado == g.botaoPressionado && r.ultCorPressionada == g.ultCorPressionada
  {
    var (b, soltou) := Processa(g.botoes[i], segundos);
    var g1 := g.(botoes := g.botoes[i := b]);
    if soltou then Soltou(g1, b.cor) else g1
  }

  /** The loop `for (var btn : botoes) btn.processar(segundos)` of Genius.java:99-100, from button `i` on. */
  function ProcessaBotoes(g: JogoValor, segundos: real, i: nat): (r: JogoValor)
    requires i <= |g.botoes|
    ensures r.estado == g.estado && r.terminou == g.terminou && r.sequencia == g.sequencia
    ensures r.indPressionamento == g.indPressionamento && |r.botoes| == |g.botoes|
    decreases |g.botoes| - i
  {
    if i == |g.botoes| then g else ProcessaBotoes(ProcessaUm(g, segundos, i), segundos, i + 1)
  }

  /**
   * Advancing the button timers from button `i` on: the buttons before `i`
   * are kept and each button from `i` on advances by `segundos`.
   * During playback releases are ignored.  While listening, a flag still up
   * afterwards means no button released, and a flag that was up and is now
   * down means some button released.
   */
  lemma {:induction false} ProcessaBotoesEfeito(g: JogoValor, segundos: real, i: nat)
    requires i <= |g.botoes|
    ensures var r := ProcessaBotoes(g, segundos, i);
      && (forall j :: 0 <= j < i ==> r.botoes[j] == g.botoes[j])
      && (forall j :: i <= j < |g.botoes| ==> r.botoes[j] == Processa(g.botoes[j], segundos).0)
      && (g.estado.Tocando? ==> r.botaoPressionado == g.botaoPressionado && r.ultCorPressionada == g.ultCorPressionada)
      && (r.botaoPressionado ==> g.botaoPressionado)
      && (g.estado.Ouvindo? && r.botaoPressionado ==>
            forall j :: i <= j < |g.botoes| ==> !Processa(g.botoes[j], segundos).1)
      && (g.estado.Ouvindo? && g.botaoPressionado && !r.botaoPressionado ==>
            exists j :: i <= j < |g.botoes| && Processa(g.botoes[j], segundos).1)
    decreases |g.botoes| - i
  {
    if i < |g.botoes| {
      var g1 := ProcessaUm(g, segundos, i);
      ProcessaBotoesEfeito(g1, segundos, i + 1);
      assert forall j :: i < j < |g.botoes| ==> g1.botoes[j] == g.botoes[j];
    }
  }

  /** One iteration of the loop of Genius.java:82-87: if button `i` contains the point it is counted and pressed. */
  function PressionaUm(g: JogoValor, p: Ponto, i: nat): (r: JogoValor)
    requires i < |g.botoes|
    ensures r.estado == g.estado && r.terminou == g.terminou && r.sequencia == g.sequencia
    ensures r.ultCorPressionada == g.ultCorPressionada
    ensures g.botoes[i].forma.Contem(p) ==>
              r.indPressionamento == g.indPressionamento + 1 && r.botaoPressionado
              && r.botoes == g.botoes[i := Pressiona(g.botoes[i])]
    ensures !g.botoes[i].forma.Contem(p) ==> r == g
  {
    if g.botoes[i].forma.Contem(p) then
      g.(indPressionamento := g.indPressionamento + 1,
         botoes := g.botoes[i := Pressiona(g.botoes[i])],
         botaoPressionado := true)
    else g
  }

  /** The loop of Genius.java:82-87 from button `i` on. */
  function PressionaAtingidos(g: JogoValor, p: Ponto, i: nat): (r: JogoValor)
    requires i <= |g.botoes|
    ensures r.estado == g.estado && r.terminou == g.terminou && r.sequencia == g.sequencia
    ensures r.ultCorPressionada == g.ultCorPressionada && |r.botoes| == |g.botoes|
    ensures r.indPressionamento >= g.indPressionamento
    decreases |g.botoes| - i
  {
    if i == |g.botoes| then g else PressionaAtingidos(PressionaUm(g, p, i), p, i + 1)
  }

  /** Every button from `i` on that contains the point is pressed and counted once; the others are kept. */
  lemma {:induction false} PressionaAtingidosEfeito(g: JogoValor, p: Ponto, i: nat)
    requires i <= |g.botoes|
    ensures var r := PressionaAtingidos(g, p, i);
      && r.indPressionamento == g.indPressionamento + Atingidos(g.botoes[i..], p)
      && r.botaoPressionado == (g.botaoPressionado || Atingidos(g.botoes[i..], p) > 0)
      && (forall j :: 0 <= j < i ==> r.botoes[j] == g.botoes[j])
      && (forall j :: i <= j < |g.botoes| ==>
            r.botoes[j] == if g.botoes[j].forma.Contem(p) then Pressiona(g.botoes[j]) else g.botoes[j])
    decreases |g.botoes| - i
  {
    if i < |g.botoes| {
      var g1 := PressionaUm(g, p, i);
      PressionaAtingidosEfeito(g1, p, i + 1);
      var n := if g.botoes[i].forma.Contem(p) then 1 else 0;
      assert g.botoes[i..][1..] == g1.botoes[i + 1..] == g.botoes[i + 1..];
      assert Atingidos(g.botoes[i..], p) == n + Atingidos(g.botoes[i + 1..], p);
      assert g1.indPressionamento == g.indPressionamento + n;
      var r := PressionaAtingidos(g1, p, i + 1);
      forall j | i <= j < |g.botoes|
        ensures r.botoes[j] == if g.botoes[j].forma.Contem(p) then Pressiona(g.botoes[j]) else g.botoes[j]
      {
        if j > i {
          assert g1.botoes[j] == g.botoes[j];
        }
      }
    }
  }

  /**
   * `processarCliqueDoMouse(e)` (Genius.java:66-88).  A click during
   * playback, or while any button is held, changes nothing.  Otherwise every
   * button containing the point is pressed and counted, with no stop after
   * the first; nothing but the buttons, the count and the flag changes.
   */
  function Clique(g: JogoValor, p: Ponto): (r: JogoValor)
    ensures g.estado.Tocando? || AlgumPressionado(g.botoes) ==> r == g
    ensures r.estado == g.estado && r.terminou == g.terminou && r.sequencia == g.sequencia
    ensures r.ultCorPressionada == g.ultCorPressionada && |r.botoes| == |g.botoes|
    ensures g.estado.Ouvindo? && !AlgumPressionado(g.botoes) ==>
      && r.indPressionamento == g.indPressionamento + Atingidos(g.botoes, p)
      && r.botaoPressionado == (g.botaoPressionado || Atingidos(g.botoes, p) > 0)
      && forall j :: 0 <= j < |g.botoes| ==>
           r.botoes[j] == if g.botoes[j].forma.Contem(p) then Pressiona(g.botoes[j]) else g.botoes[j]
  {
    if g.estado.Tocando? then g
    else if AlgumPressionado(g.botoes) then g
    else
      assert g.botoes[0..] == g.botoes;
      PressionaAtingidosEfeito(g, p, 0);
      PressionaAtingidos(g, p, 0)
  }

  /** `processarEventoDeJanela(e)` (Genius.java:90-94): the game ends, whatever its state. */
  function Fecha(g: JogoValor): (r: JogoValor)
    ensures r.terminou && r == g.(terminou := true)
  {
    g.(terminou := true)
  }

  /**
   * `processar(segundos)` (Genius.java:98-138), the colour appended on a
   * completed round being `sorteada`.  The tick is only taken while the game
   * is running, which the loop of Principal.java:56-61 tests before each tick.
   */
  function Passo(g: JogoValor, segundos: real, sorteada: Cor): (r: JogoValor)
    requires Inv(g) && !g.terminou
    // A mistake ends the game and leaves the phase and the pattern alone.
    ensures r.terminou ==> g.estado.Ouvindo? && r.estado.Ouvindo? && r.sequencia == g.sequencia
    // The pattern grows by exactly the new colour when, and only when, a round is completed.
    ensures g.estado.Ouvindo? && r.estado.Tocando? ==> r.sequencia.entradas == g.sequencia.entradas + [sorteada]
    ensures !(g.estado.Ouvindo? && r.estado.Tocando?) ==> r.sequencia.entradas == g.sequencia.entradas
    // The next playback then starts from the finished state, so it replays the whole pattern.
    ensures g.estado.Ouvindo? && r.estado.Tocando? ==> r.sequencia.Acabou()
    // Playback becomes listening in the very tick the pattern finishes, with the answer reset.
    ensures g.estado.Tocando? ==> !r.terminou && (r.estado.Ouvindo? <==> r.sequencia.Acabou())
    ensures g.estado.Tocando? && r.estado.Ouvindo? ==> r.indPressionamento == -1 && r.ultCorPressionada == None
    // A tick never advances the answer count; only clicks do.
    ensures r.estado == g.estado ==> r.indPressionamento == g.indPressionamento
  {
    ProcessaBotoesEfeito(g, segundos, 0);
    var g1 := ProcessaBotoes(g, segundos, 0);
    if g1.estado.Tocando? then Tocar(g1, sorteada) else Julgar(g1, sorteada)
  }

  /**
   * The playback half of `processar` (Genius.java:102-111), once the buttons
   * have advanced: one step of the pattern, and the switch to listening, with
   * the answer reset, exactly when that step finishes the pattern.
   */
  function Tocar(g: JogoValor, sorteada: Cor): (r: JogoValor)
    requires g.sequencia.Valida() && NumCores <= |g.botoes|
    ensures g.estado.Tocando? ==>
      && (r.sequencia, r.botoes) == Toca(g.sequencia, g.botoes)
      && r.terminou == g.terminou && r.botaoPressionado == g.botaoPressionado
      && (r.estado.Ouvindo? <==> r.sequencia.Acabou())
      && (r.estado.Ouvindo? ==> r.indPressionamento == -1 && r.ultCorPressionada == None)
      && (r.estado.Tocando? ==> r.indPressionamento == g.indPressionamento && r.ultCorPressionada == g.ultCorPressionada)
  {
    var t := Toca(g.sequencia, g.botoes);
    var g2 := g.(sequencia := t.0, botoes := t.1);
    if g2.sequencia.Acabou() then Trocar(g2, sorteada) else g2
  }

  /**
   * The listening half of `processar` (Genius.java:112-136), once the buttons
   * have advanced.  Nothing happens while a press is held or before the first
   * press; otherwise the last press is judged: a wrong colour ends the game,
   * the right colour at the last index completes the round and the pattern
   * grows, and the right colour earlier changes nothing.  While listening
   * the buttons, the count, the held flag and the last colour are untouched.
   */
  function Julgar(g: JogoValor, sorteada: Cor): (r: JogoValor)
    requires g.sequencia.Valida() && g.indPressionamento >= -1
    requires !g.botaoPressionado ==> g.indPressionamento < |g.sequencia.entradas|
    ensures g.estado.Ouvindo? ==>
      && r.botoes == g.botoes && r.indPressionamento == g.indPressionamento
      && r.botaoPressionado == g.botaoPressionado && r.ultCorPressionada == g.ultCorPressionada
    ensures g.botaoPressionado || g.indPressionamento == -1 ==> r == g
    ensures g.estado.Ouvindo? && !g.botaoPressionado && g.indPressionamento >= 0 ==>
      var certa := g.sequencia.EstaCorreta(g.indPressionamento, g.ultCorPressionada);
      && (!certa ==> r == g.(terminou := true))
      && (certa && g.indPressionamento == |g.sequencia.entradas| - 1 ==>
            r.estado.Tocando? && r.terminou == g.terminou && r.sequencia == Adiciona(g.sequencia, sorteada))
      && (certa && g.indPressionamento < |g.sequencia.entradas| - 1 ==> r == g)
  {
    if g.botaoPressionado then g
    else if g.indPressionamento == -1 then g
    else if !g.sequencia.EstaCorreta(g.indPressionamento, g.ultCorPressionada) then g.(terminou := true)
    else if g.indPressionamento == |g.sequencia.entradas| - 1 then Trocar(g, sorteada)
    else g
  }

  /**
   * While listening, a released press is judged on the tick: a wrong colour
   * ends the game, the right colour at the last index completes the round,
   * and the right colour earlier changes nothing but the buttons.
   */
  lemma JulgaResposta(g: JogoValor, segundos: real, sorteada: Cor)
    requires Inv(g) && !g.terminou && g.estado.Ouvindo?
    requires !ProcessaBotoes(g, segundos, 0).botaoPressionado && g.indPressionamento >= 0
    ensures 0 <= g.indPressionamento < |g.sequencia.entradas|
    ensures var g1 := ProcessaBotoes(g, segundos, 0);
            var r := Passo(g, segundos, sorteada);
            var certa := g.sequencia.EstaCorreta(g.indPressionamento, g1.ultCorPressionada);
            && (!certa ==> r == g1.(terminou := true))
            && (certa && g.indPressionamento == |g.sequencia.entradas| - 1 ==>
                  r == g1.(estado := Tocando, sequencia := Adiciona(g.sequencia, sorteada))
                  && r.sequencia.Acabou())
            && (certa && g.indPressionamento < |g.sequencia.entradas| - 1 ==> r == g1)
  {
    ProcessaBotoesEfeito(g, segundos, 0);
  }

  /** While listening, a tick with a press still held, or before any press, does nothing but advance the buttons. */
  lemma SemResposta(g: JogoValor, segundos: real, sorteada: Cor)
    requires Inv(g) && !g.terminou && g.estado.Ouvindo?
    requires ProcessaBotoes(g, segundos, 0).botaoPressionado || g.indPressionamento == -1
    ensures Passo(g, segundos, sorteada) == ProcessaBotoes(g, segundos, 0)
    ensures Passo(g, segundos, sorteada).botoes == seq(|g.botoes|, j requires 0 <= j < |g.botoes| => Processa(g.botoes[j], segundos).0)
  {
    ProcessaBotoesEfeito(g, segundos, 0);
  }

  /** Every tick keeps the invariant; in particular `estaCorreta` is never asked about an index outside the pattern. */
  lemma PassoPreservaInv(g: JogoValor, segundos: real, sorteada: Cor)
    requires Inv(g) && !g.terminou
    ensures Inv(Passo(g, segundos, sorteada))
  {
    ProcessaBotoesEfeito(g, segundos, 0);
    var g1 := ProcessaBotoes(g, segundos, 0);
    if g1.estado.Tocando? {
      TocarPreservaInv(g1, sorteada);
    } else if g1.botaoPressionado {
      // No button released, so the one held before is still held.
      var j :| 0 <= j < |g.botoes| && g.botoes[j].estado.Pressionado?;
      assert g1.botoes[j] == Processa(g.botoes[j], segundos).0;
      assert g1.botoes[j].estado.Pressionado?;
    }
  }

  /** A playback step keeps the invariant, and so does the switch to listening when the pattern finishes. */
  lemma TocarPreservaInv(g: JogoValor, sorteada: Cor)
    requires Inv(g) && g.estado.Tocando?
    ensures Inv(Tocar(g, sorteada))
  {
    TocaEfeito(g.sequencia, g.botoes);
  }

  /** Every click keeps the invariant: with the fixed layout, a click hits at most one button. */
  lemma CliquePreservaInv(g: JogoValor, p: Ponto)
    requires Inv(g)
    ensures Inv(Clique(g, p))
  {
    if g.estado.Ouvindo? && !AlgumPressionado(g.botoes) {
      forall i, j | 0 <= i < |g.botoes| && 0 <= j < |g.botoes| && g.botoes[i].forma.Contem(p) && g.botoes[j].forma.Contem(p)
        ensures i == j
      {
        LayoutDisjunto(i, j, p);
      }
      AtingidosNoMaximoUm(g.botoes, p);
      var k := AtingidosTestemunha(g.botoes, p);
      var r := Clique(g, p);
      if Atingidos(g.botoes, p) > 0 {
        assert r.botoes[k].estado.Pressionado?;
      }
    }
  }

  /** The events the game receives: a mouse click, the window closing, and a tick of the game loop. */
  datatype Evento = Clicar(p: Ponto) | FecharJanela | Tique(segundos: real, sorteada: Cor)

  /**
   * One event, as delivered by the listeners and the game loop of
   * Principal.java:56-61, 91-105, serialized: the loop tests `terminou()`
   * before each tick, so a tick on an ended game is dropped, while clicks and
   * window events still arrive.  (A window close landing between that test
   * and `processar` would let one more tick through; that race is not modelled.)
   */
  function Aplica(g: JogoValor, e: Evento): (r: JogoValor)
    requires Inv(g)
    ensures Inv(r)
    ensures g.terminou ==> r.terminou && r.estado == g.estado && r.sequencia == g.sequencia
  {
    match e
    case Clicar(p) => CliquePreservaInv(g, p); Clique(g, p)
    case FecharJanela => Fecha(g)
    case Tique(segundos, sorteada) =>
      if g.terminou then g else PassoPreservaInv(g, segundos, sorteada); Passo(g, segundos, sorteada)
  }

  /** A whole run of events, in order. */
  function Executa(g: JogoValor, es: seq<Evento>): (r: JogoValor)
    requires Inv(g)
    ensures Inv(r)
    decreases |es|
  {
    if es == [] then g else Executa(Aplica(g, es[0]), es[1..])
  }

  /** Once the game has ended it stays ended, and neither its phase nor its pattern changes again. */
  lemma {:induction false} TerminoDefinitivo(g: JogoValor, es: seq<Evento>)
    requires Inv(g) && g.terminou
    ensures Executa(g, es).terminou
    ensures Executa(g, es).estado == g.estado && Executa(g, es).sequencia == g.sequencia
    decreases |es|
  {
    if es != [] {
      TerminoDefinitivo(Aplica(g, es[0]), es[1..]);
    }
  }

  /** Over any run the pattern only grows: the old pattern is a prefix of the new one, which is never empty. */
  lemma {:induction false} SequenciaSoCresce(g: JogoValor, es: seq<Evento>)
    requires Inv(g)
    ensures var s := Executa(g, es).sequencia.entradas;
            |s| >= |g.sequencia.entradas| >= 1 && s[..|g.sequencia.entradas|] == g.sequencia.entradas
    decreases |es|
  {
    if es != [] {
      var g1 := Aplica(g, es[0]);
      assert g1.sequencia.entradas[..|g.sequencia.entradas|] == g.sequencia.entradas;
      SequenciaSoCresce(g1, es[1..]);
      var s := Executa(g, es).sequencia.entradas;
      assert s[..|g1.sequencia.entradas|][..|g.sequencia.entradas|] == s[..|g.sequencia.entradas|];
    }
  }

  /** A tick with no button held from `i` on leaves the game exactly as it was. */
  lemma {:induction false} NenhumPressionado(g: JogoValor, segundos: real, i: nat)
    requires i <= |g.botoes|
    requires forall j :: i <= j < |g.botoes| ==> g.botoes[j].estado.Solto?
    ensures ProcessaBotoes(g, segundos, i) == g
    decreases |g.botoes| - i
  {
    if i < |g.botoes| {
      assert g.botoes[i := g.botoes[i]] == g.botoes;
      NenhumPressionado(g, segundos, i + 1);
    }
  }

  /**
   * A tick in which button `k` is the only one held from `i` on, and is held
   * past the limit: it releases and its colour is reported, nothing else.
   */
  lemma {:induction false} UmSolta(g: JogoValor, segundos: real, k: nat, i: nat)
    requires i <= k < |g.botoes|
    requires forall j :: i <= j < |g.botoes| && j != k ==> g.botoes[j].estado.Solto?
    requires Processa(g.botoes[k], segundos).1
    ensures ProcessaBotoes(g, segundos, i)
            == Soltou(g.(botoes := g.botoes[k := Processa(g.botoes[k], segundos).0]), g.botoes[k].cor)
    decreases k - i
  {
    if i < k {
      assert g.botoes[i := g.botoes[i]] == g.botoes;
      UmSolta(g, segundos, k, i + 1);
    } else {
      NenhumPressionado(ProcessaUm(g, segundos, k), segundos, k + 1);
    }
  }

  /**
   * With the fixed layout, a click inside button `k` while listening with no
   * button held presses that button alone and counts one press.
   */
  lemma CliqueUnico(g: JogoValor, p: Ponto, k: nat)
    requires Inv(g) && g.estado.Ouvindo? && !AlgumPressionado(g.botoes)
    requires k < |g.botoes| && g.botoes[k].forma.Contem(p)
    ensures Clique(g, p) == g.(indPressionamento := g.indPressionamento + 1, botaoPressionado := true,
                               botoes := g.botoes[k := Pressiona(g.botoes[k])])
  {
    forall i, j | 0 <= i < |g.botoes| && 0 <= j < |g.botoes| && g.botoes[i].forma.Contem(p) && g.botoes[j].forma.Contem(p)
      ensures i == j
    {
      LayoutDisjunto(i, j, p);
    }
    AtingidosNoMaximoUm(g.botoes, p);
    var w := AtingidosTestemunha(g.botoes, p);
    assert Clique(g, p).botoes == g.botoes[k := Pressiona(g.botoes[k])];
  }

  /** The game after the first three ticks below: listening, no answer yet, the green cue released. */
  function AposTresTiques(): JogoValor
  {
    JogoValor(Ouvindo, false, Some(Verde), false, -1,
              BotoesIniciais()[2 := BotaoValor(Verde, Layout(2), Solto, 1.5, 1)],
              SeqValor([Verde], -1))
  }

  /**
   * The first three ticks of a game whose first colour is green: the first
   * arms the playback, the second presses the green button and switches to
   * listening, the third releases it.
   */
  lemma TresTiques()
    ensures AposTresTiques() == Aplica(Aplica(Aplica(Novo(Verde), Tique(0.1, Azul)), Tique(0.1, Azul)), Tique(1.5, Azul))
  {
    var g0 := Novo(Verde);
    NenhumPressionado(g0, 0.1, 0);
    var g1 := g0.(sequencia := SeqValor([Verde], 0));
    assert Aplica(g0, Tique(0.1, Azul)) == g1;
    NenhumPressionado(g1, 0.1, 0);
    var g2 := g1.(estado := Ouvindo, sequencia := SeqValor([Verde], -1),
                  botoes := g1.botoes[2 := BotaoValor(Verde, Layout(2), Pressionado, 0.0, 1)]);
    assert Aplica(g1, Tique(0.1, Azul)) == g2;
    UmSolta(g2, 1.5, 2, 0);
    var g3 := Aplica(g2, Tique(1.5, Azul));
    assert g2.botoes[2 := BotaoValor(Verde, Layout(2), Solto, 1.5, 1)]
        == BotoesIniciais()[2 := BotaoValor(Verde, Layout(2), Solto, 1.5, 1)];
  }

  /** Runs the first three ticks and then `e4`, `e5`: the state after the whole trace. */
  lemma DepoisDeTresTiques(e4: Evento, e5: Evento)
    ensures Inv(AposTresTiques())
    ensures Executa(Novo(Verde), [Tique(0.1, Azul), Tique(0.1, Azul), Tique(1.5, Azul), e4, e5])
            == Executa(Aplica(AposTresTiques(), e4), [e5])
  {
    var es := [Tique(0.1, Azul), Tique(0.1, Azul), Tique(1.5, Azul), e4, e5];
    var g0 := Novo(Verde);
    var g1 := Aplica(g0, es[0]);
    var g2 := Aplica(g1, es[1]);
    TresTiques();
    var g3 := AposTresTiques();
    assert Executa(g0, es) == Executa(g1, es[1..]);
    assert es[1..][1..] == es[2..] && es[2..][1..] == es[3..] && es[3..] == [e4, e5] && [e4, e5][1..] == [e5];
    assert Executa(g1, es[1..]) == Executa(g2, es[2..]);
    assert Executa(g2, es[2..]) == Executa(g3, es[3..]);
    assert Executa(g3, [e4, e5]) == Executa(Aplica(g3, e4), [e5]);
  }
  /** The game once the answer has pressed button `k` after the first three ticks. */
  function Respondido(k: nat): JogoValor
    requires k < NumCores
  {
    var g3 := AposTresTiques();
    g3.(indPressionamento := 0, botaoPressionado := true, botoes := g3.botoes[k := Pressiona(g3.botoes[k])])
  }

  /** After the first three ticks, a click inside button `k` presses it as the first answer. */
  lemma CliqueResposta(k: nat, p: Ponto)
    requires k < NumCores && Layout(k).Contem(p)
    ensures Aplica(AposTresTiques(), Clicar(p)) == Respondido(k)
    ensures Inv(Respondido(k))
  {
    DepoisDeTresTiques(Clicar(p), Clicar(p));
    var g3 := AposTresTiques();
    assert !AlgumPressionado(g3.botoes);
    CliqueUnico(g3, p, k);
  }

  /** The tick that releases the answer on button `k` (held 1.5 seconds) judges it against the one-colour pattern. */
  lemma SoltaResposta(k: nat) returns (g5: JogoValor)
    requires k < NumCores && Inv(Respondido(k))
    ensures g5 == Aplica(Respondido(k), Tique(1.5, Azul))
    ensures Valores[k] == Verde ==> g5.estado.Tocando? && !g5.terminou && g5.sequencia.entradas == [Verde, Azul]
    ensures Valores[k] != Verde ==> g5.estado.Ouvindo? && g5.terminou && g5.sequencia.entradas == [Verde]
  {
    var g4 := Respondido(k);
    assert g4.botoes[k].estado.Pressionado? && g4.botoes[k].tempo == 0.0;
    UmSolta(g4, 1.5, k, 0);
    var g4s := ProcessaBotoes(g4, 1.5, 0);
    assert g4s.ultCorPressionada == Some(Valores[k]) && !g4s.botaoPressionado;
    JulgaResposta(g4, 1.5, Azul);
    g5 := Aplica(g4, Tique(1.5, Azul));
  }

  /**
   * A first round played right: after the three ticks, a click on the green
   * circle and the tick that releases it complete the round, and the pattern
   * grows to two colours.
   */
  lemma RodadaCerta()
    ensures var g := Executa(Novo(Verde), [Tique(0.1, Azul), Tique(0.1, Azul), Tique(1.5, Azul),
                                           Clicar(Ponto(100, 350)), Tique(1.5, Azul)]);
            g.estado.Tocando? && !g.terminou && g.sequencia.entradas == [Verde, Azul]
  {
    DepoisDeTresTiques(Clicar(Ponto(100, 350)), Tique(1.5, Azul));
    CliqueResposta(2, Ponto(100, 350));
    var g5 := SoltaResposta(2);
    assert Executa(Respondido(2), [Tique(1.5, Azul)]) == Executa(g5, []) == g5;
  }

  /** The same round answered on the blue circle: the game ends, still listening, with the pattern unchanged. */
  lemma RodadaErrada()
    ensures var g := Executa(Novo(Verde), [Tique(0.1, Azul), Tique(0.1, Azul), Tique(1.5, Azul),
                                           Clicar(Ponto(350, 350)), Tique(1.5, Azul)]);
            g.estado.Ouvindo? && g.terminou && g.sequencia.entradas == [Verde]
  {
    DepoisDeTresTiques(Clicar(Ponto(350, 350)), Tique(1.5, Azul));
    CliqueResposta(3, Ponto(350, 350));
    var g5 := SoltaResposta(3);
    assert Executa(Respondido(3), [Tique(1.5, Azul)]) == Executa(g5, []) == g5;
  }

  /** The button layout loop of the constructor (Genius.java:45-47): one new button per colour, in `Cor.values()` order. */
  method CriarBotoes() returns (bs: seq<Botao>)
    ensures Distintos(bs) && Vistas(bs) == BotoesIniciais()
    ensures forall j :: 0 <= j < |bs| ==> fresh(bs[j])
  {
    bs := [];
    for i := 0 to NumCores
      invariant |bs| == i && Distintos(bs)
      invariant forall j :: 0 <= j < i ==> fresh(bs[j])
      invariant forall j :: 0 <= j < i ==> bs[j].Valor() == BotaoValor(Valores[j], Layout(j), Solto, 0.0, 0)
    {
      var b := new Botao(Valores[i], X[i], Y[i], Raio);
      bs := bs + [b];
    }
  }

  class Genius {
    var estado: Fase
    const sequencia: Sequencia
    const botoes: seq<Botao>
    var terminou: bool
    var ultCorPressionada: Option<Cor>
    var botaoPressionado: bool
    var indPressionamento: int

    function Valor(): JogoValor
      reads this, sequencia, botoes
    {
      JogoValor(estado, terminou, ultCorPressionada, botaoPressionado, indPressionamento,
                Vistas(botoes), sequencia.Valor())
    }

    ghost predicate Valid()
      reads this, sequencia, botoes
    {
      Distintos(botoes) && Inv(Valor())
    }

    constructor (primeira: Cor)
      ensures Valid() && Valor() == Novo(primeira)
      ensures fresh(sequencia) && forall i :: 0 <= i < |botoes| ==> fresh(botoes[i])
    {
      var s := new Sequencia(primeira);
      var bs := CriarBotoes();
      estado := Tocando;
      sequencia := s;
      botoes := bs;
      terminou := false;
      ultCorPressionada := None;
      botaoPressionado := false;
      indPressionamento := -1;
    }

    /** `terminou()` (Genius.java:53-55): whether the game has ended. */
    function Terminou(): (b: bool)
      reads this, sequencia, botoes
      ensures b == Valor().terminou
    {
      terminou
    }

    /** `temBotaoPressionado()` (Genius.java:57-63): whether some button is actually held. */
    method TemBotaoPressionado() returns (r: bool)
      ensures r <==> AlgumPressionado(Vistas(botoes))
    {
      for i := 0 to |botoes|
        invariant forall j :: 0 <= j < i ==> !botoes[j].EstaPressionado()
      {
        if botoes[i].EstaPressionado() {
          return true;
        }
      }
      return false;
    }

    method ProcessarCliqueDoMouse(p: Ponto)
      requires Valid()
      modifies this, botoes
      ensures Valid() && Valor() == Clique(old(Valor()), p)
    {
      CliquePreservaInv(Valor(), p);
      if estado.Tocando? {
        return;
      }
      var pressionado := TemBotaoPressionado();
      if pressionado {
        return;
      }
      PressionarAtingidos(p);
    }

    /** The loop of Genius.java:82-87: every button containing the point is counted and pressed. */
    method PressionarAtingidos(p: Ponto)
      requires Distintos(botoes)
      modifies this, botoes
      ensures Valor() == PressionaAtingidos(old(Valor()), p, 0)
    {
      ghost var g0 := Valor();
      for i := 0 to |botoes|
        invariant PressionaAtingidos(Valor(), p, i) == PressionaAtingidos(g0, p, 0)
      {
        PressionarSeAtingido(p, i);
      }
    }

    /** The body of the loop of Genius.java:82-87 for button `i`. */
    method PressionarSeAtingido(p: Ponto, i: nat)
      requires i < |botoes| && Distintos(botoes)
      modifies this, botoes[i]
      ensures Valor() == PressionaUm(old(Valor()), p, i)
    {
      if botoes[i].Contem(p) {
        PressionarEm(botoes, i);
        indPressionamento, botaoPressionado := indPressionamento + 1, true;
      }
    }

    method ProcessarEventoDeJanela()
      requires Valid()
      modifies this
      ensures Valid() && Valor() == Fecha(old(Valor()))
    {
      terminou := true;
    }

    method Processar(segundos: real, sorteada: Cor)
      requires Valid() && !terminou
      modifies this, botoes, sequencia
      ensures Valid() && Valor() == Passo(old(Valor()), segundos, sorteada)
    {
      ghost var g0 := Valor();
      PassoPreservaInv(g0, segundos, sorteada);
      ProcessaBotoesEfeito(g0, segundos, 0);
      ProcessarBotoes(segundos);
      if estado.Tocando? {
        TocarSequencia(sorteada);
      } else {
        ConferirResposta(sorteada);
      }
    }

    /** The playback half of `processar` (Genius.java:102-111). */
    method TocarSequencia(sorteada: Cor)
      requires Distintos(botoes) && NumCores <= |botoes| && sequencia.Valor().Valida()
      modifies this, botoes, sequencia
      ensures Valor() == Tocar(old(Valor()), sorteada)
    {
      sequencia.Processar(botoes);
      if sequencia.Acabou() {
        TrocarEstado(sorteada);
      }
    }

    /** The listening half of `processar` (Genius.java:112-136): a released press is judged. */
    method ConferirResposta(sorteada: Cor)
      requires sequencia.Valor().Valida() && indPressionamento >= -1
      requires !botaoPressionado ==> indPressionamento < sequencia.Tamanho()
      modifies this, sequencia
      ensures Valor() == Julgar(old(Valor()), sorteada)
    {
      if botaoPressionado {
        return;
      }
      if indPressionamento == -1 {
        return;
      }
      if !sequencia.EstaCorreta(indPressionamento, ultCorPressionada) {
        terminou := true;
        return;
      }
      if indPressionamento == sequencia.Tamanho() - 1 {
        TrocarEstado(sorteada);
        return;
      }
    }

    /** The loop `for (var btn : botoes) btn.processar(segundos)` (Genius.java:99-100), releases reported to `BotaoSoltou`. */
    method ProcessarBotoes(segundos: real)
      requires Distintos(botoes)
      modifies this, botoes
      ensures Valor() == ProcessaBotoes(old(Valor()), segundos, 0)
    {
      ghost var g0 := Valor();
      for i := 0 to |botoes|
        invariant ProcessaBotoes(Valor(), segundos, i) == ProcessaBotoes(g0, segundos, 0)
      {
        ProcessarBotao(segundos, i);
      }
    }

    /** The body of the loop of Genius.java:99-100 for button `i`: it advances, and a release is reported. */
    method ProcessarBotao(segundos: real, i: nat)
      requires i < |botoes| && Distintos(botoes)
      modifies this, botoes[i]
      ensures Valor() == ProcessaUm(old(Valor()), segundos, i)
    {
      var soltou := ProcessarEm(botoes, i, segundos);
      if soltou {
        BotaoSoltou(botoes[i]);
      }
    }

    method TrocarEstado(sorteada: Cor)
      modifies this, sequencia
      ensures Valor() == Trocar(old(Valor()), sorteada)
    {
      if estado.Tocando? {
        estado := Ouvindo;
        indPressionamento := -1;
        ultCorPressionada := None;
        return;
      }
      if estado.Ouvindo? {
        estado := Tocando;
        sequencia.Adicionar(sorteada);
      }
    }

    method BotaoSoltou(botao: Botao)
      modifies this
      ensures Valor() == Soltou(old(Valor()), botao.cor)
    {
      if estado.Tocando? {
        return;
      }
      botaoPressionado := false;
      ultCorPressionada := Some(botao.cor);
    }
  }
}

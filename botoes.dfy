/**
 * A button of the game (Botao.java): two states, a press timer that
 * auto-releases the button once it has been held for strictly more than one
 * second, and a round on-screen shape used as a hit-test.
 *
 * The value `BotaoValor` and the functions `Pressiona` and `Processa` are the
 * specification; the class `Botao` holds the same state in mutable fields
 * and its methods are proved to follow those functions.
 */
module Botoes {
  import opened Cores

  datatype Estado = Pressionado | Solto

  /** The hold time after which a pressed button releases (exclusive bound). */
  const MaxTempoPressionado: real := 1.0

  /** A mouse click position, in pixels. */
  datatype Ponto = Ponto(x: int, y: int)

  function Sq(a: int): int { a * a }

  /** From `a * a < b * b` with `b` positive, `a` lies strictly between `-b` and `b`. */
  lemma QuadradoMenor(a: int, b: int)
    requires b > 0 && Sq(a) < Sq(b)
    ensures -b < a < b
  {
  }

  /**
   * The shape `Ellipse2D.Float(x, y, raio, raio)`: the circle inscribed in
   * the `raio` by `raio` square whose top-left corner is `(x, y)`.
   */
  datatype Forma = Forma(x: int, y: int, raio: int) {
    /**
     * Ellipse containment: with width and height `w`, a point is inside when
     * ((px - x)/w - 1/2)^2 + ((py - y)/w - 1/2)^2 < 1/4; an empty shape
     * contains nothing.  Multiplied out by 4 w^2 this is the integer test below.
     */
    predicate Contem(p: Ponto) {
      raio > 0 && Sq(2 * (p.x - x) - raio) + Sq(2 * (p.y - y) - raio) < Sq(raio)
    }
  }

  /** A point inside the circle lies strictly inside its bounding square. */
  lemma ContemNoQuadrado(f: Forma, p: Ponto)
    requires f.Contem(p)
    ensures f.x < p.x < f.x + f.raio && f.y < p.y < f.y + f.raio
  {
    var dx, dy := 2 * (p.x - f.x) - f.raio, 2 * (p.y - f.y) - f.raio;
    assert Sq(dx) >= 0 && Sq(dy) >= 0;
    QuadradoMenor(dx, f.raio);
    QuadradoMenor(dy, f.raio);
  }

  /**
   * The observable state of one button.  `toques` counts how many times the
   * button's tone was started (`cor.tocarSom()`, Botao.java:49); the audio
   * itself is not modelled.
   */
  datatype BotaoValor = BotaoValor(cor: Cor, forma: Forma, estado: Estado, tempo: real, toques: nat)

  /** `pressionar` (Botao.java:41-52). */
  function Pressiona(b: BotaoValor): (r: BotaoValor)
    ensures r.cor == b.cor && r.forma == b.forma
    ensures r.estado == Pressionado
    ensures b.estado == Pressionado ==> r == b
    ensures b.estado == Solto ==> r.tempo == 0.0 && r.toques == b.toques + 1
  {
    if b.estado.Pressionado? then b
    else b.(estado := Pressionado, toques := b.toques + 1, tempo := 0.0)
  }

  /**
   * `processar(segundos)` (Botao.java:61-75): the button after `segundos`
   * more seconds, and whether it released in this call (the call of
   * `genius.botaoSoltou(this)`).
   */
  function Processa(b: BotaoValor, segundos: real): (r: (BotaoValor, bool))
    ensures r.0.cor == b.cor && r.0.forma == b.forma && r.0.toques == b.toques
    ensures b.estado == Solto ==> r == (b, false)
    ensures b.estado == Pressionado ==> r.0.tempo == b.tempo + segundos
    ensures r.1 <==> b.estado == Pressionado && b.tempo + segundos > MaxTempoPressionado
    ensures r.0.estado == (if r.1 then Solto else b.estado)
    ensures b.estado == Pressionado && !r.1 ==> r.0.tempo <= MaxTempoPressionado
  {
    if b.estado.Solto? then (b, false)
    else
      var t := b.tempo + segundos;
      if t > MaxTempoPressionado then (b.(estado := Solto, tempo := t), true)
      else (b.(tempo := t), false)
  }

  /** The total of a sequence of tick lengths. */
  function Soma(ts: seq<real>): real
  {
    if ts == [] then 0.0 else ts[0] + Soma(ts[1..])
  }

  /** Runs `Processa` over the ticks `ts`, without presses in between: the final button and the number of release notifications. */
  function ProcessaVarios(b: BotaoValor, ts: seq<real>): (r: (BotaoValor, nat))
    decreases |ts|
  {
    if ts == [] then (b, 0)
    else
      var (b1, soltou) := Processa(b, ts[0]);
      var (b2, n) := ProcessaVarios(b1, ts[1..]);
      (b2, n + if soltou then 1 else 0)
  }

  /** A released button, left alone, stays released and never notifies. */
  lemma {:induction false} SoltoNaoNotifica(b: BotaoValor, ts: seq<real>)
    requires b.estado == Solto
    ensures ProcessaVarios(b, ts) == (b, 0)
    decreases |ts|
  {
    if ts != [] {
      SoltoNaoNotifica(b, ts[1..]);
    }
  }

  /**
   * Over any run of non-negative ticks, a pressed button (one that has not yet
   * been held past the limit, as `Processa` guarantees) notifies its release
   * at most once, and it does so exactly when its total hold time ends up
   * strictly above one second; otherwise it is still pressed.
   */
  lemma {:induction false} LiberaNoMaximoUmaVez(b: BotaoValor, ts: seq<real>)
    requires b.estado == Pressionado && b.tempo <= MaxTempoPressionado
    requires forall i :: 0 <= i < |ts| ==> ts[i] >= 0.0
    ensures ProcessaVarios(b, ts).1 <= 1
    ensures ProcessaVarios(b, ts).1 == 1 <==> b.tempo + Soma(ts) > MaxTempoPressionado
    ensures ProcessaVarios(b, ts).1 == 0 <==> ProcessaVarios(b, ts).0.estado == Pressionado
    decreases |ts|
  {
    if ts != [] {
      var (b1, soltou) := Processa(b, ts[0]);
      SomaNaoNegativa(ts[1..]);
      if soltou {
        SoltoNaoNotifica(b1, ts[1..]);
      } else {
        LiberaNoMaximoUmaVez(b1, ts[1..]);
      }
    }
  }

  lemma {:induction false} SomaNaoNegativa(ts: seq<real>)
    requires forall i :: 0 <= i < |ts| ==> ts[i] >= 0.0
    ensures Soma(ts) >= 0.0
  {
    if ts != [] {
      SomaNaoNegativa(ts[1..]);
    }
  }

  class Botao {
    const cor: Cor
    const forma: Forma
    var estado: Estado
    var tempoPressionado: real
    var toques: nat

    function Valor(): BotaoValor
      reads this
    {
      BotaoValor(cor, forma, estado, tempoPressionado, toques)
    }

    /** `new Botao(genius, cor, x, y, raio)` (Botao.java:31-36): released, no time held. */
    constructor (cor: Cor, x: int, y: int, raio: int)
      ensures Valor() == BotaoValor(cor, Forma(x, y, raio), Solto, 0.0, 0)
    {
      this.cor := cor;
      this.forma := Forma(x, y, raio);
      this.estado := Solto;
      this.tempoPressionado := 0.0;
      this.toques := 0;
    }

    method Pressionar()
      modifies this
      ensures Valor() == Pressiona(old(Valor()))
    {
      if estado.Pressionado? {
        return;
      }
      estado := Pressionado;
      toques := toques + 1;
      tempoPressionado := 0.0;
    }

    method Processar(segundos: real) returns (soltou: bool)
      modifies this
      ensures (Valor(), soltou) == Processa(old(Valor()), segundos)
    {
      if estado.Solto? {
        return false;
      }
      tempoPressionado := tempoPressionado + segundos;
      soltou := false;
      if tempoPressionado > MaxTempoPressionado {
        estado := Solto;
        soltou := true;
      }
    }

    /** `contem(point)` (Botao.java:109-111): the round test, which only accepts points inside the bounding square. */
    function Contem(p: Ponto): (b: bool)
      ensures b <==> forma.Contem(p)
      ensures b ==> forma.x < p.x < forma.x + forma.raio && forma.y < p.y < forma.y + forma.raio
    {
      if forma.Contem(p) then ContemNoQuadrado(forma, p); true else false
    }

    /** `estaPressionado()` (Botao.java:113-115) on the fields. */
    function EstaPressionado(): (b: bool)
      reads this
      ensures b <==> Valor().estado.Pressionado?
    {
      estado == Pressionado
    }
  }

  /** The values of a sequence of buttons, in order. */
  function Vistas(bs: seq<Botao>): (r: seq<BotaoValor>)
    reads bs
    ensures |r| == |bs| && forall i :: 0 <= i < |bs| ==> r[i] == bs[i].Valor()
  {
    if bs == [] then [] else [bs[0].Valor()] + Vistas(bs[1..])
  }

  /** `bs.get(k).pressionar()` on distinct buttons: button `k` is pressed and no other changes. */
  method PressionarEm(bs: seq<Botao>, k: nat)
    requires k < |bs| && Distintos(bs)
    modifies bs[k]
    ensures Vistas(bs) == old(Vistas(bs))[k := Pressiona(old(bs[k].Valor()))]
  {
    bs[k].Pressionar();
    forall j | 0 <= j < |bs| && j != k
      ensures bs[j].Valor() == old(bs[j].Valor())
    {
      assert bs[j] != bs[k];
    }
  }

  /** `bs.get(k).processar(segundos)` on distinct buttons: button `k` advances and no other changes. */
  method ProcessarEm(bs: seq<Botao>, k: nat, segundos: real) returns (soltou: bool)
    requires k < |bs| && Distintos(bs)
    modifies bs[k]
    ensures Vistas(bs) == old(Vistas(bs))[k := Processa(old(bs[k].Valor()), segundos).0]
    ensures soltou == Processa(old(bs[k].Valor()), segundos).1
  {
    soltou := bs[k].Processar(segundos);
    forall j | 0 <= j < |bs| && j != k
      ensures bs[j].Valor() == old(bs[j].Valor())
    {
      assert bs[j] != bs[k];
    }
  }

  /** No button object occurs twice. */
  predicate Distintos(bs: seq<Botao>)
  {
    forall i, j :: 0 <= i < j < |bs| ==> bs[i] != bs[j]
  }
}

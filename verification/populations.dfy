/**
 * The population a meta-operator works on: a genotype matrix and a speed
 * matrix of the same shape, one row per individual.
 */
module Populations {

  type Matrix = seq<seq<real>>

  /** The two matrix views of a population: row `i` is individual `i`. */
  datatype Population = Population(genotype: Matrix, speed: Matrix)

  /** One individual: its identifier, genotype, speed vector and fitness. */
  datatype Individual = Individual(id: nat, genotype: seq<real>, speed: seq<real>, fitness: real)

  /** Genotype and speed have the same number of rows, and each row pair the same length. */
  predicate WellFormed(p: Population) {
    && |p.genotype| == |p.speed|
    && forall i :: 0 <= i < |p.genotype| ==> |p.genotype[i]| == |p.speed[i]|
  }

  /** `p` and `q` have the same rows, each of the same length, in both matrices. */
  predicate SameShape(p: Population, q: Population) {
    && |p.genotype| == |q.genotype|
    && |p.speed| == |q.speed|
    && (forall i :: 0 <= i < |p.genotype| ==> |p.genotype[i]| == |q.genotype[i]|)
    && (forall i :: 0 <= i < |p.speed| ==> |p.speed[i]| == |q.speed[i]|)
  }

  /** What a child operator's `evolve` does to the population it is handed. */
  type Transform = Population -> Population

  /** A child operator returns a population of exactly the shape it received. */
  ghost predicate KeepsShape(f: Transform) {
    forall p {:trigger f(p)} :: WellFormed(p) ==> SameShape(f(p), p)
  }

  ghost predicate AllKeepShape(fs: seq<Transform>) {
    forall k :: 0 <= k < |fs| ==> KeepsShape(fs[k])
  }

  /** The genotype matrix of each population in `ps`. */
  function Genotypes(ps: seq<Population>): (r: seq<Matrix>)
    ensures |r| == |ps| && forall j {:trigger r[j]} :: 0 <= j < |ps| ==> r[j] == ps[j].genotype
  {
    seq(|ps|, j requires 0 <= j < |ps| => ps[j].genotype)
  }

  /** The speed matrix of each population in `ps`. */
  function Speeds(ps: seq<Population>): (r: seq<Matrix>)
    ensures |r| == |ps| && forall j {:trigger r[j]} :: 0 <= j < |ps| ==> r[j] == ps[j].speed
  {
    seq(|ps|, j requires 0 <= j < |ps| => ps[j].speed)
  }
}

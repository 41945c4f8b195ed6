/** The value types the cache is keyed on: projectile, material and configuration. */
module Entities {

  /** A projectile: mass number, atomic number, charge state and kinetic energy per nucleon. */
  datatype Projectile = Projectile(A: real, Z: real, Q: real, T: real)

  /** One constituent of a material: element mass, element charge and stoichiometric weight. */
  datatype Component = Component(A: real, Z: real, stn: real)

  /** A material: ordered components, density and thickness. */
  datatype Material = Material(components: seq<Component>, density: real, thickness: real)

  /** Calculation options: the skip bit set plus the remaining option fields, which only
      matter here through equality. */
  datatype Config = Config(skip: bv8, options: seq<int>)

  /** What a cached table is identified by: the projectile without its energy, the
      material and the configuration. */
  datatype Key = Key(A: real, Z: real, Q: real, material: Material, config: Config)

  function KeyOf(p: Projectile, m: Material, c: Config): Key {
    Key(p.A, p.Z, p.Q, m, c)
  }

  /** Configuration equality, compared field by field as the byte comparison does. */
  function SameConfig(a: Config, b: Config): (r: bool)
    ensures r <==> a == b
  {
    a.skip == b.skip && a.options == b.options
  }

  /** Two projectiles that differ only in energy have the same key. */
  lemma KeyIgnoresEnergy(p: Projectile, t: real, m: Material, c: Config)
    ensures KeyOf(p.(T := t), m, c) == KeyOf(p, m, c)
    ensures forall m2: Material :: KeyOf(p, m2, c) == KeyOf(p, m, c) <==> m2 == m
  {
  }
}

/** The database the handlers share: the five staff-tier tables, the city
    registrations and the goals. The `users` table belongs to the login flow
    and is not part of this model. */
module Store {
  import Staff
  import Cadastros
  import Metas
  import Estagiarios
  import Suportes
  import Moderadores
  import Admins
  import Supervisores

  datatype Db = Db(
    estagiarios: Staff.Table,
    suportes: Staff.Table,
    moderadores: Staff.Table,
    admins: Staff.Table,
    supervisores: Staff.Table,
    cadastros: Cadastros.Store,
    metas: Metas.Goals)

  /** Every table is well formed for its tier. */
  ghost predicate Valid(db: Db) {
    && Staff.Valid(Estagiarios.Tier, db.estagiarios)
    && Staff.Valid(Suportes.Tier, db.suportes)
    && Staff.Valid(Moderadores.Tier, db.moderadores)
    && Staff.Valid(Admins.Tier, db.admins)
    && Staff.Valid(Supervisores.Tier, db.supervisores)
    && Cadastros.Valid(db.cadastros)
    && Metas.Valid(db.metas)
  }
}
